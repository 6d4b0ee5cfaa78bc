/**
  The bundle prices over whole histories: every read is right in a history of harmless events, the invariant behind
  that is the weakest one, and a history of ordinary saves and reads in which a price is wrong.
 */
module BundleHistory {
  import opened Options
  import opened Ordering
  import opened BundlePricing
  import opened EffectivePrice
  import opened BundleCache

  function Run(s: State, events: seq<Event>): (t: State)
    requires ValidState(s)
    ensures ValidState(t)
    decreases |events|
  {
    if events == [] then s
    else
      StepValid(s, events[0]);
      Run(Step(s, events[0]), events[1..])
  }

  /** An empty shop, under any promotions. */
  function Start(best: Best): State { State(Db(map[], map[], map[], 0, best), map[], COLD) }

  ghost predicate HarmlessRun(s: State, events: seq<Event>)
    requires ValidState(s)
    decreases |events|
  {
    if events == [] then true
    else
      StepValid(s, events[0]);
      Harmless(s, events[0]) && HarmlessRun(Step(s, events[0]), events[1..])
  }

  /** Every price that could be read now, of a product or of a bundle, is what rows and promotions give. */
  ghost predicate AnswersRight(s: State)
    requires Valid(s.db)
  {
    && (forall p <- s.db.products ::
          s.effective.Price(p, s.db.products[p], s.db.best) == s.db.best(p, s.db.products[p]))
    && (forall b <- s.db.bundles :: Answer(s, b) == TruePrice(s.db, b))
  }

  lemma CoherentAnswersRight(s: State)
    requires Valid(s.db) && Coherent(s)
    ensures AnswersRight(s)
  {
    forall p <- s.db.products
      ensures s.effective.Price(p, s.db.products[p], s.db.best) == s.db.best(p, s.db.products[p])
    {
      assert EffectiveRight(s, p);
    }
    forall b <- s.db.bundles ensures Answer(s, b) == TruePrice(s.db, b) {
      RecomputeRight(s, b);
      assert PriceRight(s, b);
    }
  }

  lemma {:induction false} RunCoherent(s: State, events: seq<Event>)
    requires ValidState(s) && Coherent(s) && HarmlessRun(s, events)
    ensures Coherent(Run(s, events))
    decreases |events|
  {
    if events != [] {
      StepValid(s, events[0]);
      StepCoherentExactlyWhenHarmless(s, events[0]);
      RunCoherent(Step(s, events[0]), events[1..]);
    }
  }

  /**
    After any history of harmless events the caches are invisible: `get_bundle_price` answers what a recomputation
    would, and that is the price the current rows and promotions give.
   */
  lemma CacheIsInvisible(best: Best, events: seq<Event>, b: nat)
    requires HarmlessRun(Start(best), events) && b in Run(Start(best), events).db.bundles
    ensures var s := Run(Start(best), events); Answer(s, b) == Recompute(s, b) == TruePrice(s.db, b)
  {
    var s := Run(Start(best), events);
    RunCoherent(Start(best), events);
    CoherentAnswersRight(s);
    RecomputeRight(s, b);
  }

  /******* The invariant is the weakest *******/

  /** In every harmless continuation, every price that could be read is right. */
  ghost predicate RightFromNowOn(s: State)
    requires ValidState(s)
  {
    forall events :: HarmlessRun(s, events) ==> AnswersRight(Run(s, events))
  }

  function Repeat(e: Event, n: nat): seq<Event> { if n == 0 then [] else [e] + Repeat(e, n - 1) }

  /** Changing the promotions `n` times raises the generation by `n` and leaves the effective prices in place. */
  lemma {:induction false} PromotionsRun(s: State, best: Best, n: nat)
    requires ValidState(s) && n > 0
    ensures var events := Repeat(ChangePromotions(best), n);
            && HarmlessRun(s, events)
            && var t := Run(s, events);
               && t.db == s.db.(best := best)
               && t.effective.entries == s.effective.entries && t.effective.Gen() == s.effective.Gen() + n
    decreases n
  {
    var e := ChangePromotions(best);
    StepValid(s, e);
    var t := Step(s, e);
    assert Repeat(e, n)[1..] == Repeat(e, n - 1);
    if n > 1 {
      PromotionsRun(t, best, n - 1);
    } else {
      assert Run(t, []) == t;
    }
  }

  /** A cached effective price ahead of the generation can be reached again, under promotions it is wrong for. */
  lemma EntryAheadComesBack(s: State, p: nat)
    requires ValidState(s) && p in s.db.products && p in s.effective.entries
    requires s.effective.Gen() < s.effective.entries[p].gen
    ensures !RightFromNowOn(s)
  {
    var entry := s.effective.entries[p];
    var best: Best := (q, row) => entry.price + 1;
    var events := Repeat(ChangePromotions(best), entry.gen - s.effective.Gen());
    PromotionsRun(s, best, entry.gen - s.effective.Gen());
    var t := Run(s, events);
    assert t.effective.Price(p, t.db.products[p], t.db.best) != t.db.best(p, t.db.products[p]);
  }

  /** The invariant holds exactly when everything is, and stays, right. */
  lemma CoherentExactlyWhenRightFromNowOn(s: State)
    requires ValidState(s)
    ensures Coherent(s) <==> RightFromNowOn(s)
  {
    if Coherent(s) {
      forall events | HarmlessRun(s, events) ensures AnswersRight(Run(s, events)) {
        RunCoherent(s, events);
        CoherentAnswersRight(Run(s, events));
      }
    } else if RightFromNowOn(s) {
      assert HarmlessRun(s, []) && Run(s, []) == s;
      forall p <- s.db.products ensures EffectiveRight(s, p) {
        if p in s.effective.entries && s.effective.Gen() < s.effective.entries[p].gen { EntryAheadComesBack(s, p); }
      }
      forall b <- s.db.bundles ensures PriceRight(s, b) { assert Answer(s, b) == TruePrice(s.db, b); }
    }
  }

  /**
    In a state in which all is right, an event leaves all right, now and in every harmless continuation, exactly when
    it is harmless. For a product save: it changes the price, or leaves the best price alone, or no effective price of
    the product is cached under the current generation.
   */
  lemma EventKeepsRightExactlyWhenHarmless(s: State, e: Event)
    requires ValidState(s) && RightFromNowOn(s)
    ensures ValidState(Step(s, e)) && (RightFromNowOn(Step(s, e)) <==> Harmless(s, e))
  {
    StepValid(s, e);
    CoherentExactlyWhenRightFromNowOn(s);
    StepCoherentExactlyWhenHarmless(s, e);
    CoherentExactlyWhenRightFromNowOn(Step(s, e));
  }

  /******* A history that goes wrong *******/

  /** Products of category 7 cost 50, all others their list price. */
  function SaleInCategory(p: nat, product: Product): nat { if product.category == Some(7) then 50 else product.price }

  function Lamp(category: Option<nat>, text: string): Product { Product(text, text, 80, category, None, text) }

  function Lit(slug: string): Bundle { Bundle(slug, Fixed, 0) }

  /** A lamp of category 7 in a bundle whose price has been read. */
  function FirstRead(slug: string): seq<Event> {
    [SaveProduct(1, Lamp(Some(7), slug)), SaveBundle(1, Lit(slug)), SaveItem(1, Item(1, 1, 1, false)), ReadPrice(1)]
  }

  /** The lamp leaves the category, the bundle price is read again, and later the effective price expires. */
  function SecondRead(slug: string): seq<Event> {
    [SaveProduct(1, Lamp(None, slug)), ReadPrice(1), ExpireEffective(1)]
  }

  function LampDb(slug: string, category: Option<nat>): Db {
    Db(map[1 := Lit(slug)], map[1 := Item(1, 1, 1, false)], map[1 := Lamp(category, slug)], 2, SaleInCategory)
  }

  function LampPrice(slug: string, unit: nat): Price {
    Price(slug, 80, 0, unit, [Detail(Line(1, slug, slug, 1, false, 80, unit), unit)])
  }

  lemma LampRecomputed(slug: string, category: Option<nat>, prices: Cache, effective: Effective)
    ensures var s := State(LampDb(slug, category), prices, effective);
            Recompute(s, 1) == Some(LampPrice(slug, effective.Price(1, Lamp(category, slug), SaleInCategory)))
  {
    var db := LampDb(slug, category);
    var unit := effective.Price(1, Lamp(category, slug), SaleInCategory);
    var line := Line(1, slug, slug, 1, false, 80, unit);
    OneItemLines(db, effective, 1, 1);
    assert LineOf(db, effective, 1) == line;
    OneLinePrice(Lit(slug), line);
  }

  lemma OneItemLines(db: Db, effective: Effective, b: nat, i: nat)
    requires Valid(db) && i in db.items && ItemsOf(db, b) == {i}
    ensures Lines(db, effective, b) == [LineOf(db, effective, i)]
  {
    OneItem(db, b, i);
  }

  lemma OneItem(db: Db, b: nat, i: nat)
    requires ItemsOf(db, b) == {i}
    ensures Sort(ItemsOf(db, b), Less) == [i]
  {
    var order: seq<nat> := [i];
    SortUnique(Sort(ItemsOf(db, b), Less), order, Less);
  }

  lemma OneLinePrice(bundle: Bundle, line: Line)
    requires bundle.discountType.Fixed? && bundle.discountValue == 0 && line.quantity == 1
    ensures ComputePrice(bundle, [line])
            == Some(Price(bundle.slug, line.regularUnit, 0, line.unitPrice, [Detail(line, line.unitPrice)]))
  {
    assert line.unitPrice * line.quantity == line.unitPrice && line.regularUnit * line.quantity == line.regularUnit;
    TotalAppend([], line);
    assert [] + [line] == [line];
    FixedAmount(bundle, Total([line]));
    assert Details([line]) == [Detail(line, line.unitPrice)];
  }

  /** The effective price of the lamp, computed while it was in category 7. */
  const WARM := Effective(Some(1), map[1 := Tagged(1, 50)])

  lemma {:induction false} RunCons(s: State, e: Event, rest: seq<Event>)
    requires ValidState(s)
    ensures ValidState(Step(s, e)) && Run(s, [e] + rest) == Run(Step(s, e), rest)
  {
    StepValid(s, e);
    assert ([e] + rest)[1..] == rest;
  }

  lemma RowsSaved(slug: string)
    ensures var s1 := Step(Start(SaleInCategory), SaveProduct(1, Lamp(Some(7), slug)));
            && Valid(s1.db)
            && var s2 := Step(s1, SaveBundle(1, Lit(slug)));
               && Valid(s2.db)
               && Step(s2, SaveItem(1, Item(1, 1, 1, false)))
                   == State(LampDb(slug, Some(7)), map[], Effective(Some(1), map[]))
  {
    var s1 := Step(Start(SaleInCategory), SaveProduct(1, Lamp(Some(7), slug)));
    assert s1
        == State(Db(map[], map[], map[1 := Lamp(Some(7), slug)], 2, SaleInCategory), map[], Effective(Some(1), map[]));
    var s2 := Step(s1, SaveBundle(1, Lit(slug)));
    assert s2.db == Db(map[1 := Lit(slug)], map[], map[1 := Lamp(Some(7), slug)], 2, SaleInCategory);
  }

  lemma ReadLamp(slug: string)
    ensures var s := State(LampDb(slug, Some(7)), map[], Effective(Some(1), map[]));
            Step(s, ReadPrice(1)) == State(LampDb(slug, Some(7)), map[slug := LampPrice(slug, 50)], WARM)
  {
    LampRecomputed(slug, Some(7), map[], Effective(Some(1), map[]));
    assert ProductsOf(LampDb(slug, Some(7)), 1) == {1};
  }

  lemma FirstReadRuns(slug: string)
    ensures Run(Start(SaleInCategory), FirstRead(slug))
        == State(LampDb(slug, Some(7)), map[slug := LampPrice(slug, 50)], WARM)
  {
    var e1, e2 := SaveProduct(1, Lamp(Some(7), slug)), SaveBundle(1, Lit(slug));
    var e3, e4 := SaveItem(1, Item(1, 1, 1, false)), ReadPrice(1);
    var s := Start(SaleInCategory);
    assert FirstRead(slug) == [e1] + ([e2] + ([e3] + ([e4] + [])));
    RunCons(s, e1, [e2] + ([e3] + ([e4] + [])));
    RunCons(Step(s, e1), e2, [e3] + ([e4] + []));
    RunCons(Step(Step(s, e1), e2), e3, [e4] + []);
    RowsSaved(slug);
    ReadLamp(slug);
    RunCons(State(LampDb(slug, Some(7)), map[], Effective(Some(1), map[])), e4, []);
  }

  lemma SecondReadRuns(slug: string, s: State)
    requires s == State(LampDb(slug, Some(7)), map[slug := LampPrice(slug, 50)], WARM) && ValidState(s)
    ensures Run(s, SecondRead(slug))
            == State(LampDb(slug, None), map[slug := LampPrice(slug, 50)], Effective(Some(1), map[]))
  {
    LampLeavesCategory(slug);
    LampReadAgain(slug);
    LampExpires(slug);
    ThreeRun(s, SaveProduct(1, Lamp(None, slug)), ReadPrice(1), ExpireEffective(1));
  }

  lemma LampExpires(slug: string)
    ensures var s := State(LampDb(slug, None), map[slug := LampPrice(slug, 50)], WARM);
            && Valid(s.db)
            && Step(s, ExpireEffective(1))
               == State(LampDb(slug, None), map[slug := LampPrice(slug, 50)], Effective(Some(1), map[]))
  {
    assert WARM.entries - {1} == map[];
  }

  lemma ThreeRun(s: State, e1: Event, e2: Event, e3: Event)
    requires ValidState(s)
    ensures ValidState(Step(s, e1)) && ValidState(Step(Step(s, e1), e2))
    ensures Run(s, [e1, e2, e3]) == Step(Step(Step(s, e1), e2), e3)
  {
    assert [e1, e2, e3] == [e1] + ([e2] + ([e3] + []));
    RunCons(s, e1, [e2] + ([e3] + []));
    RunCons(Step(s, e1), e2, [e3] + []);
    RunCons(Step(Step(s, e1), e2), e3, []);
  }

  lemma LampLeavesCategory(slug: string)
    ensures var s := State(LampDb(slug, Some(7)), map[slug := LampPrice(slug, 50)], WARM);
            Step(s, SaveProduct(1, Lamp(None, slug))) == State(LampDb(slug, None), map[], WARM)
  {
    SlugOfProduct(LampDb(slug, Some(7)), 1);
  }

  lemma LampReadAgain(slug: string)
    ensures var s := State(LampDb(slug, None), map[], WARM);
            Step(s, ReadPrice(1)) == State(LampDb(slug, None), map[slug := LampPrice(slug, 50)], WARM)
  {
    LampRecomputed(slug, None, map[], WARM);
    assert ProductsOf(LampDb(slug, None), 1) == {1};
    assert WARM.PricedAll({1}, LampDb(slug, None).products, SaleInCategory) == WARM;
  }

  /**
    The save drops the bundle's entry, but not the effective price from which the next read recomputes. That read
    stores a price that outlives it: then a recomputation gives 80, and `get_bundle_price` still answers 50.
   */
  lemma CategoryChangeLeavesStalePrice(slug: string)
    ensures var s := Run(Run(Start(SaleInCategory), FirstRead(slug)), SecondRead(slug));
            && 1 in s.db.bundles && Answer(s, 1) == Some(LampPrice(slug, 50))
            && Recompute(s, 1) == TruePrice(s.db, 1) == Some(LampPrice(slug, 80))
  {
    FirstReadRuns(slug);
    SecondReadRuns(slug, Run(Start(SaleInCategory), FirstRead(slug)));
    LampRecomputed(slug, None, map[slug := LampPrice(slug, 50)], Effective(Some(1), map[]));
    LampRecomputed(slug, None, map[], COLD);
  }

  /******* Limits *******/

  /** A rename invalidates the new slug only: the old slug's entry outlives the last bundle that had it. */
  lemma RenameLeavesOldEntry(s: State, pk: nat, bundle: Bundle)
    requires Valid(s.db) && pk in s.db.bundles && s.db.bundles[pk].slug in s.prices
    requires bundle.slug != s.db.bundles[pk].slug && SlugFree(s.db, pk, bundle.slug)
    ensures var t, previous := Step(s, SaveBundle(pk, bundle)), s.db.bundles[pk].slug;
            previous in t.prices && previous !in Slugs(t.db)
  {
    var t, previous := Step(s, SaveBundle(pk, bundle)), s.db.bundles[pk].slug;
    forall b <- t.db.bundles ensures t.db.bundles[b].slug != previous {
      if b != pk { assert s.db.bundles[b].slug != previous; }
    }
  }

  /** After the first read, the lamp is moved to a second bundle. */
  function MovedAway(slug: string, other: string): seq<Event> {
    [SaveBundle(2, Lit(other)), SaveItem(1, Item(2, 1, 1, false))]
  }

  /** The first bundle, now empty, cannot be priced any more, and `get_bundle_price` still answers 50. */
  lemma MovedItemLeavesStalePrice(slug: string, other: string)
    requires slug != other
    ensures var s := Run(Run(Start(SaleInCategory), FirstRead(slug)), MovedAway(slug, other));
            && 1 in s.db.bundles && Answer(s, 1) == Some(LampPrice(slug, 50))
            && Recompute(s, 1) == TruePrice(s.db, 1) == None
  {
    var s := Run(Start(SaleInCategory), FirstRead(slug));
    FirstReadRuns(slug);
    TwoRun(s, SaveBundle(2, Lit(other)), SaveItem(1, Item(2, 1, 1, false)));
    SecondBundle(slug, other);
    LampMoves(slug, other);
    var t := TwoBundles(slug, other, 2);
    assert ItemsOf(t.db, 1) == {};
    EmptyBundle(t, 1);
    EmptyBundle(State(t.db, map[], COLD), 1);
  }

  /** The lamp is in bundle `b` of the two, and the first bundle's price is cached. */
  function TwoBundles(slug: string, other: string, b: nat): State {
    State(LampDb(slug, Some(7)).(bundles := map[1 := Lit(slug), 2 := Lit(other)],
                                 items := map[1 := Item(b, 1, 1, false)]),
          map[slug := LampPrice(slug, 50)], WARM)
  }

  lemma SecondBundle(slug: string, other: string)
    requires slug != other
    ensures var s := State(LampDb(slug, Some(7)), map[slug := LampPrice(slug, 50)], WARM);
            Valid(s.db) && Step(s, SaveBundle(2, Lit(other))) == TwoBundles(slug, other, 1)
  {
  }

  lemma LampMoves(slug: string, other: string)
    requires slug != other
    ensures var s := TwoBundles(slug, other, 1);
            Valid(s.db) && Step(s, SaveItem(1, Item(2, 1, 1, false))) == TwoBundles(slug, other, 2)
  {
  }

  lemma TwoRun(s: State, e1: Event, e2: Event)
    requires ValidState(s)
    ensures ValidState(Step(s, e1)) && Run(s, [e1, e2]) == Step(Step(s, e1), e2)
  {
    assert [e1, e2] == [e1] + ([e2] + []);
    RunCons(s, e1, [e2] + []);
    RunCons(Step(s, e1), e2, []);
  }

  lemma EmptyBundle(s: State, b: nat)
    requires Valid(s.db) && b in s.db.bundles && ItemsOf(s.db, b) == {}
    ensures Recompute(s, b) == None
  {
  }
}
