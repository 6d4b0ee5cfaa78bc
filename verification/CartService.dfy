/** The cart service as an object over the line table, and the server-side pricing of a cart's lines. */
module CartService {
  import opened Options
  import opened Ordering
  import opened Sums
  import opened CartLines

  /** A product's unit price, which may differ inside a bundle. */
  type Prices = (nat, bool) -> nat

  function UnitPrice(line: Line, prices: Prices): nat { prices(line.key.product, line.key.bundle.Some?) }

  function LineTotal(line: Line, prices: Prices): nat { UnitPrice(line, prices) * line.quantity }

  function LinesOf(lines: Lines, cart: nat): set<nat> { set k <- lines | lines[k].key.cart == cart }

  /** The sum of the totals of the listed lines. */
  function Total(lines: Lines, pks: seq<nat>, prices: Prices): nat
    requires forall k <- pks :: k in lines
  {
    if pks == [] then 0 else Total(lines, pks[..|pks| - 1], prices) + LineTotal(lines[pks[|pks| - 1]], prices)
  }

  function Subtotal(lines: Lines, cart: nat, prices: Prices): nat {
    Total(lines, Sort(LinesOf(lines, cart), Less), prices)
  }

  lemma {:induction false} TotalKept(lines: Lines, lines': Lines, pks: seq<nat>, prices: Prices)
    requires forall k <- pks :: k in lines && k in lines' && lines'[k] == lines[k]
    ensures Total(lines', pks, prices) == Total(lines, pks, prices)
  {
    if pks != [] {
      assert pks[|pks| - 1] in pks;
      TotalKept(lines, lines', pks[..|pks| - 1], prices);
    }
  }

  lemma {:induction false} TotalChanged(lines: Lines, pk: nat, line: Line, pks: seq<nat>, prices: Prices)
    requires (forall k <- pks :: k in lines) && Strictly(pks, Less) && pk in pks
    ensures Total(lines[pk := line], pks, prices) + LineTotal(lines[pk], prices)
        == Total(lines, pks, prices) + LineTotal(line, prices)
  {
    var rest, last := pks[..|pks| - 1], pks[|pks| - 1];
    assert last in pks;
    if last == pk {
      TotalKept(lines, lines[pk := line], rest, prices);
    } else {
      TotalChanged(lines, pk, line, rest, prices);
    }
  }

  lemma TotalAppended(lines: Lines, pk: nat, line: Line, pks: seq<nat>, prices: Prices)
    requires (forall k <- pks :: k in lines) && pk !in lines
    ensures Total(lines[pk := line], pks + [pk], prices) == Total(lines, pks, prices) + LineTotal(line, prices)
  {
    assert (pks + [pk])[..|pks + [pk]| - 1] == pks;
    TotalKept(lines, lines[pk := line], pks, prices);
  }

  lemma WriteChangesSubtotal(lines: Lines, pk: nat, line: Line, prices: Prices)
    requires pk in lines && line.key == lines[pk].key
    ensures Subtotal(lines[pk := line], line.key.cart, prices) + LineTotal(lines[pk], prices)
            == Subtotal(lines, line.key.cart, prices) + LineTotal(line, prices)
  {
    var cart := line.key.cart;
    assert LinesOf(lines[pk := line], cart) == LinesOf(lines, cart);
    TotalChanged(lines, pk, line, Sort(LinesOf(lines, cart), Less), prices);
  }

  lemma NewLineRaisesSubtotal(lines: Lines, pk: nat, line: Line, prices: Prices)
    requires forall k <- lines :: k < pk
    ensures Subtotal(lines[pk := line], line.key.cart, prices)
        == Subtotal(lines, line.key.cart, prices) + LineTotal(line, prices)
  {
    var was := Sort(LinesOf(lines, line.key.cart), Less);
    NewLineComesLast(lines, pk, line, was);
    SubtotalAppended(lines, pk, line, was, prices);
  }

  lemma SubtotalAppended(lines: Lines, pk: nat, line: Line, was: seq<nat>, prices: Prices)
    requires was == Sort(LinesOf(lines, line.key.cart), Less) && pk !in lines
    requires Sort(LinesOf(lines[pk := line], line.key.cart), Less) == was + [pk]
    ensures Subtotal(lines[pk := line], line.key.cart, prices)
        == Subtotal(lines, line.key.cart, prices) + LineTotal(line, prices)
  {
    SubtotalIs(lines, line.key.cart, was, prices);
    SubtotalIs(lines[pk := line], line.key.cart, was + [pk], prices);
    TotalAppended(lines, pk, line, was, prices);
  }

  lemma SubtotalIs(lines: Lines, cart: nat, pks: seq<nat>, prices: Prices)
    requires pks == Sort(LinesOf(lines, cart), Less)
    ensures (forall k <- pks :: k in lines) && Subtotal(lines, cart, prices) == Total(lines, pks, prices)
  {
  }

  lemma NewLineComesLast(lines: Lines, pk: nat, line: Line, was: seq<nat>)
    requires was == Sort(LinesOf(lines, line.key.cart), Less) && forall k <- lines :: k < pk
    ensures pk !in lines && Sort(LinesOf(lines[pk := line], line.key.cart), Less) == was + [pk]
  {
    assert LinesOf(lines[pk := line], line.key.cart) == LinesOf(lines, line.key.cart) + {pk};
    AppendGreatest(LinesOf(lines, line.key.cart), pk);
  }

  /** Writing a line changes its cart's subtotal by what the line's total changes by, and no other cart's. */
  lemma LineWritten(lines: Lines, pk: nat, line: Line, was: nat, cart: nat, prices: Prices)
    requires if pk in lines then lines[pk] == Line(line.key, was) else was == 0 && forall k <- lines :: k < pk
    ensures if cart == line.key.cart then
              Subtotal(lines[pk := line], cart, prices) + LineTotal(Line(line.key, was), prices)
              == Subtotal(lines, cart, prices) + LineTotal(line, prices)
            else Subtotal(lines[pk := line], cart, prices) == Subtotal(lines, cart, prices)
  {
    if cart != line.key.cart {
      assert LinesOf(lines[pk := line], cart) == LinesOf(lines, cart);
      TotalKept(lines, lines[pk := line], Sort(LinesOf(lines, cart), Less), prices);
    } else if pk in lines {
      WriteChangesSubtotal(lines, pk, line, prices);
    } else {
      NewLineRaisesSubtotal(lines, pk, line, prices);
    }
  }

  lemma AddWrites(s: State, key: Key, quantity: Option<int>) returns (pk: nat, line: Line)
    requires Bounded(s) && OneLineEach(s.lines) && AddRefusal(s, key, quantity).None?
    ensures Added(s, key, quantity).0.lines == s.lines[pk := line]
    ensures line == Line(key, Held(Added(s, key, quantity).0.lines, key))
    ensures if pk in s.lines then s.lines[pk] == Line(key, Held(s.lines, key))
            else Held(s.lines, key) == 0 && forall k <- s.lines :: k < pk
  {
    var (t, outcome) := Added(s, key, quantity);
    pk, line := outcome.line, t.lines[outcome.line];
    StepOneLineEach(s, Add(key, quantity));
    HeldByLine(t.lines, pk);
    if pk in s.lines { HeldByLine(s.lines, pk); }
  }

  /**
    An add changes its cart's subtotal by the unit price times what it changes the key's quantity by, and no other
    cart's.
   */
  lemma AddChangesSubtotal(s: State, key: Key, quantity: Option<int>, cart: nat, prices: Prices)
    requires Bounded(s) && OneLineEach(s.lines)
    ensures var t := Added(s, key, quantity).0;
            Subtotal(t.lines, cart, prices) - Subtotal(s.lines, cart, prices)
            == if cart == key.cart then
                 prices(key.product, key.bundle.Some?) * (Held(t.lines, key) - Held(s.lines, key))
               else 0
  {
    var t := Added(s, key, quantity).0;
    if AddRefusal(s, key, quantity).None? {
      var pk, line := AddWrites(s, key, quantity);
      LineWritten(s.lines, pk, line, Held(s.lines, key), cart, prices);
      TimesDifference(prices(key.product, key.bundle.Some?), Held(s.lines, key), Held(t.lines, key));
    }
  }

  lemma TimesDifference(unit: nat, was: nat, now: nat)
    ensures unit * (now - was) == unit * now - unit * was
  {
  }

  /** An accepted update changes its cart's subtotal by the unit price times the change of quantity, and no other's. */
  lemma UpdateChangesSubtotal(s: State, cart: nat, pk: nat, quantity: Option<int>, other: nat, prices: Prices)
    requires UpdateAllowed(s, cart, pk, quantity)
    ensures var t, key := Updated(s, cart, pk, quantity).0, s.lines[pk].key;
            Subtotal(t.lines, other, prices) - Subtotal(s.lines, other, prices)
            == if other == cart then
                 prices(key.product, key.bundle.Some?) * (quantity.value - s.lines[pk].quantity)
               else 0
  {
    var t, key := Updated(s, cart, pk, quantity).0, s.lines[pk].key;
    UpdateEffect(s, cart, pk, quantity);
    LineWritten(s.lines, pk, t.lines[pk], s.lines[pk].quantity, other, prices);
    assert t.lines == s.lines[pk := t.lines[pk]];
    TimesDifference(prices(key.product, key.bundle.Some?), s.lines[pk].quantity, quantity.value);
  }

  lemma {:induction false} TotalWithout(lines: Lines, pks: seq<nat>, i: nat, prices: Prices)
    requires (forall k <- pks :: k in lines) && i < |pks|
    ensures forall k <- pks[..i] + pks[i + 1..] :: k in pks
    ensures Total(lines, pks, prices)
            == Total(lines, pks[..i] + pks[i + 1..], prices) + LineTotal(lines[pks[i]], prices)
    decreases |pks|
  {
    var n := |pks| - 1;
    if i < n {
      var rest := pks[..i] + pks[i + 1..];
      assert rest[..|rest| - 1] == pks[..n][..i] + pks[..n][i + 1..];
      TotalWithout(lines, pks[..n], i, prices);
    } else {
      assert pks[..i] + pks[i + 1..] == pks[..n];
    }
  }

  lemma ListingWithout(lines: Lines, pk: nat, cart: nat, i: nat, pks: seq<nat>)
    requires pks == Sort(LinesOf(lines, cart), Less) && i < |pks| && pks[i] == pk
    ensures Sort(LinesOf(lines - {pk}, cart), Less) == pks[..i] + pks[i + 1..]
  {
    assert LinesOf(lines - {pk}, cart) == LinesOf(lines, cart) - {pk};
    SortWithout(LinesOf(lines, cart), pks, i);
  }

  /** A removal lowers its cart's subtotal by the unit price times the line's quantity, and no other's. */
  lemma RemoveChangesSubtotal(s: State, cart: nat, pk: nat, other: nat, prices: Prices)
    requires pk in s.lines && s.lines[pk].key.cart == cart
    ensures var t, key := Removed(s, cart, pk).0, s.lines[pk].key;
            Subtotal(s.lines, other, prices) - Subtotal(t.lines, other, prices)
            == if other == cart then prices(key.product, key.bundle.Some?) * s.lines[pk].quantity else 0
  {
    var t, pks := Removed(s, cart, pk).0, Sort(LinesOf(s.lines, other), Less);
    if other == cart {
      assert pk in pks;
      var i :| 0 <= i < |pks| && pks[i] == pk;
      ListingWithout(s.lines, pk, cart, i, pks);
      TotalWithout(s.lines, pks, i, prices);
      TotalKept(s.lines, t.lines, Sort(LinesOf(t.lines, cart), Less), prices);
    } else {
      assert LinesOf(t.lines, other) == LinesOf(s.lines, other);
      TotalKept(s.lines, t.lines, pks, prices);
    }
  }

  datatype PricedLine = PricedLine(pk: nat, quantity: nat, unitPrice: nat, lineTotal: nat)

  function Priced(lines: Lines, pk: nat, prices: Prices): PricedLine
    requires pk in lines
  {
    PricedLine(pk, lines[pk].quantity, UnitPrice(lines[pk], prices), LineTotal(lines[pk], prices))
  }

  method PriceLines(lines: Lines, items: seq<nat>, prices: Prices) returns (priced: seq<PricedLine>, subtotal: nat)
    requires forall i :: 0 <= i < |items| ==> items[i] in lines
    ensures |priced| == |items| && forall i :: 0 <= i < |items| ==> priced[i] == Priced(lines, items[i], prices)
    ensures subtotal == Total(lines, items, prices)
  {
    priced, subtotal := [], 0;
    for i := 0 to |items|
      invariant |priced| == i && forall j :: 0 <= j < i ==> priced[j] == Priced(lines, items[j], prices)
      invariant subtotal == Total(lines, items[..i], prices)
    {
      assert items[..i + 1][..i] == items[..i];
      var unitPrice := UnitPrice(lines[items[i]], prices);
      var lineTotal := unitPrice * lines[items[i]].quantity;
      subtotal := subtotal + lineTotal;
      priced := priced + [PricedLine(items[i], lines[items[i]].quantity, unitPrice, lineTotal)];
    }
    assert items[..|items|] == items;
  }

  function Totals(priced: seq<PricedLine>): seq<nat> {
    seq(|priced|, i requires 0 <= i < |priced| => priced[i].lineTotal)
  }

  lemma {:induction false} TotalIsSum(lines: Lines, items: seq<nat>, prices: Prices, totals: seq<nat>)
    requires (forall k <- items :: k in lines) && |totals| == |items|
    requires forall i :: 0 <= i < |items| ==> totals[i] == LineTotal(lines[items[i]], prices)
    ensures Total(lines, items, prices) == Sum(totals)
  {
    if items != [] {
      var n := |items| - 1;
      TotalIsSum(lines, items[..n], prices, totals[..n]);
    }
  }

  /**
    `price_cart_lines`: the cart's lines, each once, oldest first, with quantity, unit price and their product; and
    the sum of these.
   */
  method PriceCartLines(lines: Lines, cart: nat, prices: Prices) returns (priced: seq<PricedLine>, subtotal: nat)
    ensures forall k :: Lists(priced, k) <==> k in lines && lines[k].key.cart == cart
    ensures forall i, j :: 0 <= i < j < |priced| ==> priced[i].pk < priced[j].pk
    ensures forall i :: 0 <= i < |priced| ==> ShowsLine(lines, prices, priced[i])
    ensures subtotal == Subtotal(lines, cart, prices) == Sum(Totals(priced))
  {
    var items := Sort(LinesOf(lines, cart), Less);
    assert forall i :: 0 <= i < |items| ==> items[i] in items;
    priced, subtotal := PriceLines(lines, items, prices);
    AllShown(lines, items, prices, priced);
    ListsItems(items, priced);
    TotalIsSum(lines, items, prices, Totals(priced));
  }

  lemma AllShown(lines: Lines, items: seq<nat>, prices: Prices, priced: seq<PricedLine>)
    requires |priced| == |items| && Strictly(items, Less)
    requires forall i :: 0 <= i < |items| ==> items[i] in lines && priced[i] == Priced(lines, items[i], prices)
    ensures forall i :: 0 <= i < |priced| ==> ShowsLine(lines, prices, priced[i])
    ensures forall i, j :: 0 <= i < j < |priced| ==> priced[i].pk < priced[j].pk
  {
    forall i | 0 <= i < |priced| ensures ShowsLine(lines, prices, priced[i]) { PricedShows(lines, items[i], prices); }
    assert forall i, j :: 0 <= i < j < |items| ==> Less(items[i], items[j]);
  }

  /** The row's quantity, its product's price, loose or in a bundle, and their product. */
  ghost predicate ShowsLine(lines: Lines, prices: Prices, p: PricedLine) {
    && p.pk in lines && p.quantity == lines[p.pk].quantity
    && p.unitPrice == prices(lines[p.pk].key.product, lines[p.pk].key.bundle.Some?)
    && p.lineTotal == p.unitPrice * p.quantity
  }

  lemma PricedShows(lines: Lines, pk: nat, prices: Prices)
    requires pk in lines
    ensures ShowsLine(lines, prices, Priced(lines, pk, prices))
  {
  }

  ghost predicate Lists(priced: seq<PricedLine>, k: nat) { exists i :: 0 <= i < |priced| && priced[i].pk == k }

  lemma ListsItems(items: seq<nat>, priced: seq<PricedLine>)
    requires |priced| == |items| && forall i :: 0 <= i < |items| ==> priced[i].pk == items[i]
    ensures forall k :: Lists(priced, k) <==> k in items
  {
    forall k | k in items ensures Lists(priced, k) {
      var i :| 0 <= i < |items| && items[i] == k;
      assert priced[i].pk == k;
    }
  }

  class Carts {
    var lines: Lines
    var nextPk: nat
    var products: map<nat, Product>
    var bundles: set<nat>

    constructor ()
      ensures Model() == EMPTY
    {
      lines, nextPk, products, bundles := map[], 0, map[], {};
    }

    ghost function Model(): State
      reads this
    {
      State(lines, nextPk, products, bundles)
    }

    method AddItem(cart: nat, productId: nat, quantity: Option<int>, bundleId: Option<nat>) returns (outcome: Outcome)
      modifies this`lines, this`nextPk
      ensures (Model(), outcome) == Added(old(Model()), Key(cart, productId, bundleId), quantity)
    {
      if quantity.None? || quantity.value < 1 || quantity.value > MAX_LINE_QUANTITY { return Refused(BadQuantity); }
      if productId !in products || !Orderable(products[productId]) { return Refused(ProductUnavailable); }
      if bundleId.Some? && bundleId.value !in bundles { return Refused(BundleUnavailable); }
      var key := Key(cart, productId, bundleId);
      var existing := Existing(lines, key);
      if existing.Some? {
        var sum := lines[existing.value].quantity + quantity.value;
        lines := lines[existing.value := Line(key, if sum < MAX_LINE_QUANTITY then sum else MAX_LINE_QUANTITY)];
        return Done(existing.value);
      }
      lines := lines[nextPk := Line(key, quantity.value)];
      outcome := Done(nextPk);
      nextPk := nextPk + 1;
    }

    method UpdateItem(cart: nat, itemId: nat, quantity: Option<int>) returns (outcome: Outcome)
      modifies this`lines
      ensures (Model(), outcome) == Updated(old(Model()), cart, itemId, quantity)
    {
      if quantity.None? || quantity.value < 1 || quantity.value > MAX_LINE_QUANTITY { return Refused(BadQuantity); }
      if itemId !in lines || lines[itemId].key.cart != cart { return Refused(LineNotFound); }
      var product := lines[itemId].key.product;
      if product !in products || !Orderable(products[product]) { return Refused(ProductUnavailable); }
      lines := lines[itemId := lines[itemId].(quantity := quantity.value)];
      outcome := Done(itemId);
    }

    method RemoveItem(cart: nat, itemId: nat) returns (outcome: Outcome)
      modifies this`lines
      ensures (Model(), outcome) == Removed(old(Model()), cart, itemId)
    {
      if itemId !in lines || lines[itemId].key.cart != cart { return Refused(LineNotFound); }
      lines := lines - {itemId};
      outcome := Done(itemId);
    }
  }
}
