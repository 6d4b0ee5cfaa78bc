/**
  The anonymous carts' lines: adds that merge and saturate, updates, removals, and what deleting a product or a bundle
  does to them.
 */
module CartLines {
  import opened Options
  import opened Ordering

  const MAX_LINE_QUANTITY := 999

  datatype Stock = InStock | LowStock | OutOfStock

  datatype Product = Product(isActive: bool, stock: Stock)

  /** What makes two lines of one cart the same line. */
  datatype Key = Key(cart: nat, product: nat, bundle: Option<nat>)

  datatype Line = Line(key: Key, quantity: nat)

  type Lines = map<nat, Line>

  datatype State = State(lines: Lines, nextPk: nat, products: map<nat, Product>, bundles: set<nat>)

  datatype Error = BadQuantity | ProductUnavailable | BundleUnavailable | LineNotFound

  datatype Outcome = Done(line: nat) | Refused(error: Error)

  predicate Orderable(product: Product) { product.isActive && product.stock != OutOfStock }

  predicate Available(s: State, product: nat) { product in s.products && Orderable(s.products[product]) }

  /** `int(quantity)` within the limits; `None` is a value that is no whole number. */
  predicate GoodQuantity(quantity: Option<int>) { quantity.Some? && 1 <= quantity.value <= MAX_LINE_QUANTITY }

  function Capped(quantity: nat): nat { if quantity < MAX_LINE_QUANTITY then quantity else MAX_LINE_QUANTITY }

  function Matching(lines: Lines, key: Key): set<nat> { set k <- lines | lines[k].key == key }

  /** The oldest line with the key. */
  function Existing(lines: Lines, key: Key): (pk: Option<nat>)
    ensures pk.Some? ==> pk.value in lines && lines[pk.value].key == key
    ensures pk.None? ==> forall k <- lines :: lines[k].key != key
  {
    var matches := Matching(lines, key);
    if matches == {} then
      assert forall k <- lines | lines[k].key == key :: k in matches;
      None
    else
      assert exists m :: IsLeast(m, matches, Less) by { var m := LeastExists(matches, Less); }
      assert forall m, n :: IsLeast(m, matches, Less) && IsLeast(n, matches, Less) ==> m == n;
      var m :| IsLeast(m, matches, Less);
      Some(m)
  }

  /******* Operations *******/

  function AddRefusal(s: State, key: Key, quantity: Option<int>): Option<Error> {
    if !GoodQuantity(quantity) then Some(BadQuantity)
    else if !Available(s, key.product) then Some(ProductUnavailable)
    else if key.bundle.Some? && key.bundle.value !in s.bundles then Some(BundleUnavailable)
    else None
  }

  function Added(s: State, key: Key, quantity: Option<int>): (State, Outcome) {
    var refusal := AddRefusal(s, key, quantity);
    if refusal.Some? then (s, Refused(refusal.value))
    else
      var existing := Existing(s.lines, key);
      if existing.Some? then
        var merged := Capped(s.lines[existing.value].quantity + quantity.value);
        (s.(lines := s.lines[existing.value := Line(key, merged)]), Done(existing.value))
      else
        (s.(lines := s.lines[s.nextPk := Line(key, quantity.value)], nextPk := s.nextPk + 1), Done(s.nextPk))
  }

  predicate Owns(s: State, cart: nat, pk: nat) { pk in s.lines && s.lines[pk].key.cart == cart }

  function UpdateRefusal(s: State, cart: nat, pk: nat, quantity: Option<int>): Option<Error> {
    if !GoodQuantity(quantity) then Some(BadQuantity)
    else if !Owns(s, cart, pk) then Some(LineNotFound)
    else if !Available(s, s.lines[pk].key.product) then Some(ProductUnavailable)
    else None
  }

  function Updated(s: State, cart: nat, pk: nat, quantity: Option<int>): (State, Outcome) {
    var refusal := UpdateRefusal(s, cart, pk, quantity);
    if refusal.Some? then (s, Refused(refusal.value))
    else (s.(lines := s.lines[pk := Line(s.lines[pk].key, quantity.value)]), Done(pk))
  }

  function Removed(s: State, cart: nat, pk: nat): (State, Outcome) {
    if !Owns(s, cart, pk) then (s, Refused(LineNotFound)) else (s.(lines := s.lines - {pk}), Done(pk))
  }

  function WithoutBundle(key: Key, bundle: nat): Key {
    if key.bundle == Some(bundle) then key.(bundle := None) else key
  }

  /** Deleting a bundle sets it to null on the lines that name it. */
  function BundleDeleted(lines: Lines, bundle: nat): Lines {
    map k <- lines :: lines[k].(key := WithoutBundle(lines[k].key, bundle))
  }

  function ProductDeleted(lines: Lines, product: nat): Lines {
    map k <- lines | lines[k].key.product != product :: lines[k]
  }

  datatype Event =
    | Add(key: Key, quantity: Option<int>)
    | Update(cart: nat, pk: nat, quantity: Option<int>)
    | Remove(cart: nat, pk: nat)
    | SaveProduct(product: nat, state: Product)
    | DeleteProduct(product: nat)
    | SaveBundle(bundle: nat)
    | DeleteBundle(bundle: nat)

  function Step(s: State, e: Event): State {
    match e
    case Add(key, quantity) => Added(s, key, quantity).0
    case Update(cart, pk, quantity) => Updated(s, cart, pk, quantity).0
    case Remove(cart, pk) => Removed(s, cart, pk).0
    case SaveProduct(product, state) => s.(products := s.products[product := state])
    case DeleteProduct(product) => s.(products := s.products - {product}, lines := ProductDeleted(s.lines, product))
    case SaveBundle(bundle) => s.(bundles := s.bundles + {bundle})
    case DeleteBundle(bundle) => s.(bundles := s.bundles - {bundle}, lines := BundleDeleted(s.lines, bundle))
  }

  function Run(s: State, events: seq<Event>): State
    decreases |events|
  {
    if events == [] then s else Run(Step(s, events[0]), events[1..])
  }

  const EMPTY := State(map[], 0, map[], {})

  /******* Invariants *******/

  ghost predicate Bounded(s: State) {
    forall k <- s.lines :: k < s.nextPk && 1 <= s.lines[k].quantity <= MAX_LINE_QUANTITY
  }

  /** No cart has two lines for one product and bundle. */
  ghost predicate OneLineEach(lines: Lines) {
    forall j <- lines, k <- lines :: lines[j].key == lines[k].key ==> j == k
  }

  lemma StepBounded(s: State, e: Event)
    requires Bounded(s)
    ensures Bounded(Step(s, e))
  {
  }

  lemma StepOneLineEach(s: State, e: Event)
    requires OneLineEach(s.lines) && !e.DeleteBundle?
    ensures OneLineEach(Step(s, e).lines)
  {
  }

  /** The bundle's removal would give two lines of one cart the same key. */
  ghost predicate Collides(lines: Lines, bundle: nat) {
    exists j <- lines, k <- lines ::
      lines[j].key.bundle == Some(bundle) && lines[k].key == lines[j].key.(bundle := None)
  }

  /** Deleting a bundle keeps one line per product and bundle exactly when no cart also holds the loose product. */
  lemma BundleDeletionKeepsOneLineExactlyWhenNoCollision(lines: Lines, bundle: nat)
    requires OneLineEach(lines)
    ensures OneLineEach(BundleDeleted(lines, bundle)) <==> !Collides(lines, bundle)
  {
    var after := BundleDeleted(lines, bundle);
    if Collides(lines, bundle) {
      var j, k :| j in lines && k in lines && lines[j].key.bundle == Some(bundle)
          && lines[k].key == lines[j].key.(bundle := None);
      assert after[j].key == after[k].key && j != k;
    } else {
      forall j <- after, k <- after | after[j].key == after[k].key ensures j == k {
        KeysStayApart(lines, bundle, j, k);
      }
    }
  }

  /** A product with a bundle, and the same product on its own, in one cart; then the bundle is deleted. */
  function TwoWays(): seq<Event> {
    [SaveProduct(1, Product(true, InStock)), SaveBundle(1),
     Add(Key(1, 1, None), Some(1)), Add(Key(1, 1, Some(1)), Some(1)), DeleteBundle(1)]
  }

  lemma {:induction false} RunCons(s: State, e: Event, rest: seq<Event>)
    ensures Run(s, [e] + rest) == Run(Step(s, e), rest)
  {
    assert ([e] + rest)[1..] == rest;
  }

  function BothLines(bundle: Option<nat>): Lines { map[0 := Line(Key(1, 1, None), 1), 1 := Line(Key(1, 1, bundle), 1)] }

  lemma LinesAdded()
    ensures var s := State(map[], 0, map[1 := Product(true, InStock)], {1});
            var t := Step(s, Add(Key(1, 1, None), Some(1)));
            && t == s.(lines := map[0 := Line(Key(1, 1, None), 1)], nextPk := 1)
            && Step(t, Add(Key(1, 1, Some(1)), Some(1))) == s.(lines := BothLines(Some(1)), nextPk := 2)
  {
    assert Matching(map[], Key(1, 1, None)) == {};
    assert Matching(map[0 := Line(Key(1, 1, None), 1)], Key(1, 1, Some(1))) == {};
  }

  /** It leaves the cart with two lines for one product. */
  lemma BundleDeletionLeavesTwoLines()
    ensures Run(EMPTY, TwoWays()).lines == BothLines(None) && !OneLineEach(Run(EMPTY, TwoWays()).lines)
  {
    var products := map[1 := Product(true, InStock)];
    var e1, e2 := SaveProduct(1, Product(true, InStock)), SaveBundle(1);
    var e3, e4, e5 := Add(Key(1, 1, None), Some(1)), Add(Key(1, 1, Some(1)), Some(1)), DeleteBundle(1);
    assert TwoWays() == [e1] + ([e2] + ([e3] + ([e4] + ([e5] + []))));
    RunCons(EMPTY, e1, [e2] + ([e3] + ([e4] + ([e5] + []))));
    assert Step(EMPTY, e1) == State(map[], 0, products, {});
    RunCons(State(map[], 0, products, {}), e2, [e3] + ([e4] + ([e5] + [])));
    assert Step(State(map[], 0, products, {}), e2) == State(map[], 0, products, {1});
    LinesAdded();
    RunCons(State(map[], 0, products, {1}), e3, [e4] + ([e5] + []));
    RunCons(Step(State(map[], 0, products, {1}), e3), e4, [e5] + []);
    RunCons(State(BothLines(Some(1)), 2, products, {1}), e5, []);
    assert BundleDeleted(BothLines(Some(1)), 1) == BothLines(None);
    assert BothLines(None)[0].key == BothLines(None)[1].key;
  }

  lemma KeysStayApart(lines: Lines, bundle: nat, j: nat, k: nat)
    requires !Collides(lines, bundle) && j in lines && k in lines
    requires WithoutBundle(lines[j].key, bundle) == WithoutBundle(lines[k].key, bundle)
    ensures lines[j].key == lines[k].key
  {
  }

  /** Every run keeps quantities within 1..999; one line per key survives unless a deleted bundle collides. */
  lemma {:induction false} RunKeepsCarts(s: State, events: seq<Event>)
    requires Bounded(s) && OneLineEach(s.lines)
    ensures Bounded(Run(s, events)) && forall k <- Run(s, events).lines :: 1 <= Run(s, events).lines[k].quantity <= 999
    ensures NoCollision(s, events) ==> OneLineEach(Run(s, events).lines)
    decreases |events|
  {
    if events != [] {
      StepBounded(s, events[0]);
      if events[0].DeleteBundle? {
        BundleDeletionKeepsOneLineExactlyWhenNoCollision(s.lines, events[0].bundle);
      } else {
        StepOneLineEach(s, events[0]);
      }
      if OneLineEach(Step(s, events[0]).lines) { RunKeepsCarts(Step(s, events[0]), events[1..]); }
      else { RunBounded(Step(s, events[0]), events[1..]); }
    }
  }

  lemma {:induction false} RunBounded(s: State, events: seq<Event>)
    requires Bounded(s)
    ensures Bounded(Run(s, events))
    decreases |events|
  {
    if events != [] { StepBounded(s, events[0]); RunBounded(Step(s, events[0]), events[1..]); }
  }

  /** Along the run, no bundle is deleted while a cart holds both its line and the loose product's. */
  ghost predicate NoCollision(s: State, events: seq<Event>)
    decreases |events|
  {
    events != [] ==>
      (events[0].DeleteBundle? ==> !Collides(s.lines, events[0].bundle)) && NoCollision(Step(s, events[0]), events[1..])
  }

  /******* Saturating sums *******/

  /** The quantity a cart holds of a key; zero without a line. */
  ghost function Held(lines: Lines, key: Key): nat {
    if HasLine(lines, key) then var k :| k in lines && lines[k].key == key; lines[k].quantity else 0
  }

  ghost predicate HasLine(lines: Lines, key: Key) { exists k <- lines :: lines[k].key == key }

  lemma HeldByLine(lines: Lines, pk: nat)
    requires OneLineEach(lines) && pk in lines
    ensures Held(lines, lines[pk].key) == lines[pk].quantity
  {
  }

  /** Lines with one key are all a key's quantity depends on. */
  lemma HeldUnchanged(lines: Lines, lines': Lines, key: Key)
    requires OneLineEach(lines) && OneLineEach(lines')
    requires forall k :: (k in lines && lines[k].key == key) <==> (k in lines' && lines'[k].key == key)
    requires forall k :: k in lines && lines[k].key == key ==> lines'[k] == lines[k]
    ensures Held(lines', key) == Held(lines, key)
  {
    if k :| k in lines && lines[k].key == key {
      HeldByLine(lines, k);
      HeldByLine(lines', k);
    }
  }

  /** What the accepted adds of one event put on a key. */
  function Adds(s: State, e: Event, key: Key): nat {
    if e.Add? && e.key == key && AddRefusal(s, key, e.quantity).None? then e.quantity.value else 0
  }

  function TotalAdded(s: State, events: seq<Event>, key: Key): nat
    decreases |events|
  {
    if events == [] then 0 else Adds(s, events[0], key) + TotalAdded(Step(s, events[0]), events[1..], key)
  }

  /** The event neither updates nor removes a line of the key, and deletes neither its product nor any bundle. */
  predicate Spares(s: State, e: Event, key: Key) {
    match e
    case Update(_, pk, _) => pk in s.lines ==> s.lines[pk].key != key
    case Remove(_, pk) => pk in s.lines ==> s.lines[pk].key != key
    case DeleteProduct(product) => product != key.product
    case DeleteBundle(_) => false
    case _ => true
  }

  predicate SparesAll(s: State, events: seq<Event>, key: Key)
    decreases |events|
  {
    events != [] ==> Spares(s, events[0], key) && SparesAll(Step(s, events[0]), events[1..], key)
  }

  lemma AddHeld(s: State, key: Key, quantity: Option<int>)
    requires Bounded(s) && OneLineEach(s.lines)
    ensures Held(Added(s, key, quantity).0.lines, key) == Capped(Held(s.lines, key) + Adds(s, Add(key, quantity), key))
  {
    var (t, outcome) := Added(s, key, quantity);
    StepOneLineEach(s, Add(key, quantity));
    if outcome.Done? { HeldByLine(t.lines, outcome.line); }
  }

  lemma StepHeld(s: State, e: Event, key: Key)
    requires Bounded(s) && OneLineEach(s.lines) && Spares(s, e, key)
    ensures Held(Step(s, e).lines, key) == Capped(Held(s.lines, key) + Adds(s, e, key))
  {
    if e.Add? && e.key == key {
      AddHeld(s, key, e.quantity);
    } else {
      StepOneLineEach(s, e);
      HeldUnchanged(s.lines, Step(s, e).lines, key);
    }
  }

  /**
    A key that is only added to ends at the sum of its adds capped at 999, however they were split, ordered or
    interleaved with changes to other lines, products and bundles.
   */
  lemma {:induction false} AddsSaturate(s: State, events: seq<Event>, key: Key)
    requires Bounded(s) && OneLineEach(s.lines) && SparesAll(s, events, key)
    ensures var sum := Held(s.lines, key) + TotalAdded(s, events, key);
            Held(Run(s, events).lines, key) == if sum <= 999 then sum else 999
    decreases |events|
  {
    if events != [] {
      var t, rest := Step(s, events[0]), events[1..];
      StepHeld(s, events[0], key);
      SparedStepKeeps(s, events[0], key);
      AddsSaturate(t, rest, key);
      CappedTwice(Held(s.lines, key), Adds(s, events[0], key), TotalAdded(t, rest, key));
    }
  }

  lemma SparedStepKeeps(s: State, e: Event, key: Key)
    requires Bounded(s) && OneLineEach(s.lines) && Spares(s, e, key)
    ensures Bounded(Step(s, e)) && OneLineEach(Step(s, e).lines)
  {
    StepBounded(s, e);
    StepOneLineEach(s, e);
  }

  lemma CappedTwice(a: nat, b: nat, c: nat)
    ensures Capped(Capped(a + b) + c) == Capped(a + (b + c))
  {
  }

  /******* What each operation does to the lines *******/

  /** Whole numbers from 1 to 999. */
  ghost predicate Allowed(quantity: Option<int>) { quantity.Some? && 1 <= quantity.value <= 999 }

  /** The product exists, is active and is not out of stock. */
  ghost predicate CanBeOrdered(s: State, product: nat) {
    product in s.products && s.products[product].isActive && !s.products[product].stock.OutOfStock?
  }

  /** Line `pk` now has the quantity; nothing else is different. */
  ghost predicate OnlyQuantity(s: State, t: State, pk: nat, quantity: nat) {
    && t == s.(lines := t.lines) && pk in s.lines && t.lines.Keys == s.lines.Keys
    && t.lines[pk].key == s.lines[pk].key && t.lines[pk].quantity == quantity
    && forall k <- s.lines :: k != pk ==> t.lines[k] == s.lines[k]
  }

  /** `pk` is the oldest of the key's lines. */
  ghost predicate Oldest(lines: Lines, key: Key, pk: nat) {
    pk in lines && lines[pk].key == key && forall k <- lines :: lines[k].key == key ==> pk <= k
  }

  /**
    An add is refused, for the first reason that applies and without any effect, if the quantity is not allowed, the
    product cannot be ordered or the bundle does not exist. Otherwise the oldest line of the key gets the sum, capped
    at 999, or, if the key has no line, a new one gets the quantity.
   */
  lemma AddEffect(s: State, key: Key, quantity: Option<int>)
    ensures var (t, outcome) := Added(s, key, quantity);
            if !Allowed(quantity) then t == s && outcome == Refused(BadQuantity)
            else if !CanBeOrdered(s, key.product) then t == s && outcome == Refused(ProductUnavailable)
            else if key.bundle.Some? && key.bundle.value !in s.bundles then
              t == s && outcome == Refused(BundleUnavailable)
            else if exists k <- s.lines :: s.lines[k].key == key then
              && outcome.Done? && Oldest(s.lines, key, outcome.line)
              && var sum := s.lines[outcome.line].quantity + quantity.value;
                 OnlyQuantity(s, t, outcome.line, if sum <= 999 then sum else 999)
            else
              && outcome == Done(s.nextPk) && t.lines == s.lines[s.nextPk := Line(key, quantity.value)]
              && t == s.(lines := t.lines, nextPk := s.nextPk + 1)
  {
    var existing := Existing(s.lines, key);
    if existing.Some? {
      var matches := Matching(s.lines, key);
      assert IsLeast(existing.value, matches, Less);
      forall k <- s.lines | s.lines[k].key == key ensures existing.value <= k { assert k in matches; }
    }
  }

  /** The update is accepted: an allowed quantity, the cart's own line, and a product that can still be ordered. */
  ghost predicate UpdateAllowed(s: State, cart: nat, pk: nat, quantity: Option<int>) {
    && Allowed(quantity) && pk in s.lines && s.lines[pk].key.cart == cart
    && CanBeOrdered(s, s.lines[pk].key.product)
  }

  /**
    An accepted update leaves the line with the requested quantity, whatever it was before, and every other line as it
    was; a refused one changes nothing, and names the first reason that applies.
   */
  lemma UpdateEffect(s: State, cart: nat, pk: nat, quantity: Option<int>)
    ensures var (t, outcome) := Updated(s, cart, pk, quantity);
            if UpdateAllowed(s, cart, pk, quantity) then
              outcome == Done(pk) && OnlyQuantity(s, t, pk, quantity.value)
            else
              && t == s
              && outcome == Refused(if !Allowed(quantity) then BadQuantity
                                    else if pk !in s.lines || s.lines[pk].key.cart != cart then LineNotFound
                                    else ProductUnavailable)
  {
  }

  /** After an accepted update the requested quantity is held of the line's key, and of others what was held before. */
  lemma UpdateSetsHeld(s: State, cart: nat, pk: nat, quantity: Option<int>, key: Key)
    requires OneLineEach(s.lines) && UpdateAllowed(s, cart, pk, quantity)
    ensures Held(Updated(s, cart, pk, quantity).0.lines, key)
            == if key == s.lines[pk].key then quantity.value else Held(s.lines, key)
  {
    var t := Updated(s, cart, pk, quantity).0;
    StepOneLineEach(s, Update(cart, pk, quantity));
    if key == s.lines[pk].key { HeldByLine(t.lines, pk); } else { HeldUnchanged(s.lines, t.lines, key); }
  }

  /** Of two accepted updates of a line only the second matters. */
  lemma LastUpdateWins(s: State, cart: nat, pk: nat, first: Option<int>, second: Option<int>)
    requires UpdateAllowed(s, cart, pk, first) && UpdateAllowed(s, cart, pk, second)
    ensures Updated(Updated(s, cart, pk, first).0, cart, pk, second) == Updated(s, cart, pk, second)
  {
    var t := Updated(s, cart, pk, first).0;
    assert t.lines[pk := Line(s.lines[pk].key, second.value)] == s.lines[pk := Line(s.lines[pk].key, second.value)];
  }

  /** A removal takes exactly the cart's own line away, and refuses any other. */
  lemma RemoveEffect(s: State, cart: nat, pk: nat)
    ensures var (t, outcome) := Removed(s, cart, pk);
            if pk !in s.lines || s.lines[pk].key.cart != cart then t == s && outcome == Refused(LineNotFound)
            else
              && outcome == Done(pk) && t == s.(lines := t.lines) && t.lines.Keys == s.lines.Keys - {pk}
              && forall k <- t.lines :: t.lines[k] == s.lines[k]
  {
  }

  /** Removing a line that an add has just created undoes the add. */
  lemma RemoveUndoesAdd(s: State, key: Key, quantity: Option<int>)
    requires s.nextPk !in s.lines && forall k <- s.lines :: s.lines[k].key != key
    ensures var (t, outcome) := Added(s, key, quantity);
            outcome.Done? ==> Removed(t, key.cart, outcome.line).0.lines == s.lines
  {
    AddEffect(s, key, quantity);
  }

  /**
    Deleting a product takes exactly its lines out of every cart; deleting a bundle makes loose lines of its own, with
    their quantities; saving either changes no line.
   */
  lemma CatalogueEventEffect(s: State, e: Event)
    requires e.SaveProduct? || e.DeleteProduct? || e.SaveBundle? || e.DeleteBundle?
    ensures var t := Step(s, e);
            match e
            case SaveProduct(product, state) =>
              && t == s.(products := t.products) && t.products.Keys == s.products.Keys + {product}
              && forall p <- t.products :: t.products[p] == if p == product then state else s.products[p]
            case DeleteProduct(product) =>
              && t == s.(products := s.products - {product}, lines := t.lines)
              && (forall k :: k in t.lines <==> k in s.lines && s.lines[k].key.product != product)
              && forall k <- t.lines :: t.lines[k] == s.lines[k]
            case SaveBundle(bundle) => t == s.(bundles := s.bundles + {bundle})
            case DeleteBundle(bundle) =>
              && t == s.(bundles := s.bundles - {bundle}, lines := t.lines) && t.lines.Keys == s.lines.Keys
              && forall k <- s.lines ::
                   && t.lines[k].quantity == s.lines[k].quantity
                   && t.lines[k].key.cart == s.lines[k].key.cart && t.lines[k].key.product == s.lines[k].key.product
                   && t.lines[k].key.bundle
                      == if s.lines[k].key.bundle == Some(bundle) then None else s.lines[k].key.bundle
            case _ => true
  {
  }
}
