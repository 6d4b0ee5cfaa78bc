/**
  Product images and the constraint that a product has at most one primary image, which the database checks at every
  single write.
 */
module ProductImages {
  import opened Options

  /** `sources` are the variants processed from the file. */
  datatype Image = Image(product: nat, isPrimary: bool, file: string, sources: seq<string>, altText: string,
                         sortOrder: nat)

  type Table = map<nat, Image>

  /** The uniqueness constraint. */
  predicate OnePrimary(t: Table) {
    forall a <- t, b <- t :: t[a].isPrimary && t[b].isPrimary && t[a].product == t[b].product ==> a == b
  }

  datatype Write =
    | Put(pk: nat, image: Image)                 // insert or update one row
    | Demote(product: nat, spared: Option<nat>)  // clear the flag of the product's primaries, except one row
    | Drop(pks: set<nat>)

  function Demoted(t: Table, product: nat, spared: Option<nat>): Table {
    map k <- t :: if t[k].product == product && spared != Some(k) then t[k].(isPrimary := false) else t[k]
  }

  function Apply(t: Table, w: Write): Table {
    match w
    case Put(pk, image) => t[pk := image]
    case Demote(product, spared) => Demoted(t, product, spared)
    case Drop(pks) => t - pks
  }

  function ApplyAll(t: Table, writes: seq<Write>): Table
    decreases |writes|
  {
    if writes == [] then t else ApplyAll(Apply(t, writes[0]), writes[1..])
  }

  /** The constraint holds before, after, and between all the writes. */
  ghost predicate Safe(t: Table, writes: seq<Write>)
    decreases |writes|
  {
    OnePrimary(t) && (writes != [] ==> Safe(Apply(t, writes[0]), writes[1..]))
  }

  lemma OneWrite(t: Table, w: Write)
    ensures ApplyAll(t, [w]) == Apply(t, w)
    ensures Safe(t, [w]) <==> OnePrimary(t) && OnePrimary(Apply(t, w))
  {
    assert [w][1..] == [];
  }

  lemma TwoWrites(t: Table, v: Write, w: Write)
    ensures ApplyAll(t, [v, w]) == Apply(Apply(t, v), w)
    ensures Safe(t, [v, w]) <==> OnePrimary(t) && OnePrimary(Apply(t, v)) && OnePrimary(Apply(Apply(t, v), w))
  {
    assert [v, w][1..] == [w];
    OneWrite(Apply(t, v), w);
  }

  /******* Operations as the writes they issue *******/

  datatype Upload = Upload(isPrimary: bool, file: string, altText: string, sortOrder: nat)

  /** The row of an upload; its variants are processed later. */
  function Row(product: nat, upload: Upload, isPrimary: bool): Image {
    Image(product, isPrimary, upload.file, [], upload.altText, upload.sortOrder)
  }

  /** The nested images of `create_product`, under consecutive primary keys; only the first claim is kept. */
  function CreateProductWrites(product: nat, images: seq<Upload>, nextPk: nat, primaryClaimed: bool): seq<Write>
    decreases |images|
  {
    if images == [] then []
    else
      [Put(nextPk, Row(product, images[0], images[0].isPrimary && !primaryClaimed))]
      + CreateProductWrites(product, images[1..], nextPk + 1, primaryClaimed || images[0].isPrimary)
  }

  function CreateImageWrites(product: nat, image: Upload, pk: nat): seq<Write> {
    (if image.isPrimary then [Demote(product, None)] else []) + [Put(pk, Row(product, image, image.isPrimary))]
  }

  /** The fields an update may carry; the product is not among them. */
  datatype Data = Data(isPrimary: Option<bool>, file: Option<string>, altText: Option<string>, sortOrder: Option<nat>)

  /** A new file discards the variants of the old one. */
  function Changed(loaded: Image, data: Data): Image {
    Image(loaded.product,
          if data.isPrimary.Some? then data.isPrimary.value else loaded.isPrimary,
          if data.file.Some? then data.file.value else loaded.file,
          if data.file.Some? then [] else loaded.sources,
          if data.altText.Some? then data.altText.value else loaded.altText,
          if data.sortOrder.Some? then data.sortOrder.value else loaded.sortOrder)
  }

  /** `update_image` writes back the row it loaded, with the given fields replaced. */
  function UpdateImageWrites(pk: nat, loaded: Image, data: Data): seq<Write> {
    (if data.isPrimary == Some(true) then [Demote(loaded.product, Some(pk))] else []) + [Put(pk, Changed(loaded, data))]
  }

  /******* Single operations *******/

  ghost predicate NoPrimary(t: Table, product: nat) { forall k <- t :: t[k].product == product ==> !t[k].isPrimary }

  lemma {:induction false} CreateProductSafe(t: Table, product: nat, images: seq<Upload>, nextPk: nat,
      primaryClaimed: bool)
    requires OnePrimary(t) && (!primaryClaimed ==> NoPrimary(t, product)) && forall k <- t :: k < nextPk
    ensures Safe(t, CreateProductWrites(product, images, nextPk, primaryClaimed))
    decreases |images|
  {
    if images != [] {
      var first := Row(product, images[0], images[0].isPrimary && !primaryClaimed);
      CreateProductSafe(t[nextPk := first], product, images[1..], nextPk + 1, primaryClaimed || images[0].isPrimary);
      var rest := CreateProductWrites(product, images[1..], nextPk + 1, primaryClaimed || images[0].isPrimary);
      assert ([Put(nextPk, first)] + rest)[1..] == rest;
    }
  }

  /** The row shows the upload, and no variants yet. */
  ghost predicate AsUploaded(image: Image, product: nat, upload: Upload, isPrimary: bool) {
    image == Image(product, isPrimary, upload.file, [], upload.altText, upload.sortOrder)
  }

  /** `t'` is `t` with the uploads in order from `nextPk` on, of which only the first claim is kept. */
  ghost predicate Created(t: Table, t': Table, product: nat, images: seq<Upload>, nextPk: nat, primaryClaimed: bool) {
    && (forall k :: k in t' <==> k in t || nextPk <= k < nextPk + |images|)
    && (forall k <- t :: t'[k] == t[k])
    && (forall k :: nextPk <= k < nextPk + |images| ==>
          AsUploaded(t'[k], product, images[k - nextPk], FirstClaim(images, k - nextPk) && !primaryClaimed))
  }

  lemma OneMoreCreated(t: Table, t': Table, product: nat, images: seq<Upload>, nextPk: nat, primaryClaimed: bool)
    requires images != [] && nextPk !in t
    requires Created(t[nextPk := Row(product, images[0], images[0].isPrimary && !primaryClaimed)], t', product,
                     images[1..], nextPk + 1, primaryClaimed || images[0].isPrimary)
    ensures Created(t, t', product, images, nextPk, primaryClaimed)
  {
    forall k | nextPk <= k < nextPk + |images|
      ensures k in t'
      ensures AsUploaded(t'[k], product, images[k - nextPk], FirstClaim(images, k - nextPk) && !primaryClaimed)
    {
      if k > nextPk {
        LaterClaim(images, k - nextPk);
        assert images[1..][k - nextPk - 1] == images[k - nextPk];
      }
    }
  }

  /** The rows that `create_product` leaves: the uploads in order, with only the first claim kept. */
  lemma {:induction false} CreateProductKeepsFirstClaim(t: Table, product: nat, images: seq<Upload>, nextPk: nat,
      primaryClaimed: bool)
    requires forall k <- t :: k < nextPk
    ensures Created(t, ApplyAll(t, CreateProductWrites(product, images, nextPk, primaryClaimed)), product, images,
                    nextPk, primaryClaimed)
    decreases |images|
  {
    if images != [] {
      var first := Row(product, images[0], images[0].isPrimary && !primaryClaimed);
      var claimed := primaryClaimed || images[0].isPrimary;
      var rest := CreateProductWrites(product, images[1..], nextPk + 1, claimed);
      assert ([Put(nextPk, first)] + rest)[1..] == rest;
      CreateProductKeepsFirstClaim(t[nextPk := first], product, images[1..], nextPk + 1, claimed);
      OneMoreCreated(t, ApplyAll(t[nextPk := first], rest), product, images, nextPk, primaryClaimed);
    }
  }

  /** The upload is the first that claims to be primary. */
  predicate FirstClaim(images: seq<Upload>, i: nat)
    requires i < |images|
  {
    images[i].isPrimary && forall u <- images[..i] :: !u.isPrimary
  }

  lemma LaterClaim(images: seq<Upload>, i: nat)
    requires 1 <= i < |images|
    ensures FirstClaim(images, i) <==> FirstClaim(images[1..], i - 1) && !images[0].isPrimary
  {
    assert images[..i] == [images[0]] + images[1..][..i - 1];
  }

  /** Row `k` is as before, except that its flag is cleared if `demoted`. */
  ghost predicate KeptBut(t: Table, t': Table, k: nat, demoted: bool)
    requires k in t && k in t'
  {
    && t'[k].product == t[k].product && t'[k].isPrimary == (t[k].isPrimary && !demoted)
    && t'[k].file == t[k].file && t'[k].sources == t[k].sources
    && t'[k].altText == t[k].altText && t'[k].sortOrder == t[k].sortOrder
  }

  /**
    A created image is as uploaded, and, if primary, its product's only one; every other image keeps all but its flag.
   */
  lemma CreateImageEffect(t: Table, product: nat, image: Upload, pk: nat)
    requires OnePrimary(t) && pk !in t
    ensures Safe(t, CreateImageWrites(product, image, pk))
    ensures var t' := ApplyAll(t, CreateImageWrites(product, image, pk));
            && t'.Keys == t.Keys + {pk}
            && AsUploaded(t'[pk], product, image, image.isPrimary)
            && forall k <- t :: KeptBut(t, t', k, image.isPrimary && t[k].product == product)
  {
    var put := Put(pk, Row(product, image, image.isPrimary));
    if image.isPrimary {
      assert CreateImageWrites(product, image, pk) == [Demote(product, None), put];
      TwoWrites(t, Demote(product, None), put);
    } else {
      assert CreateImageWrites(product, image, pk) == [put];
      OneWrite(t, put);
    }
  }

  /** The table after the create, as the demotion and the insert leave it. */
  lemma CreateImageApplied(t: Table, product: nat, image: Upload, pk: nat)
    ensures ApplyAll(t, CreateImageWrites(product, image, pk))
            == (if image.isPrimary then Demoted(t, product, None) else t)[pk := Row(product, image, image.isPrimary)]
  {
    var put := Put(pk, Row(product, image, image.isPrimary));
    if image.isPrimary {
      assert CreateImageWrites(product, image, pk) == [Demote(product, None), put];
      TwoWrites(t, Demote(product, None), put);
    } else {
      assert CreateImageWrites(product, image, pk) == [put];
      OneWrite(t, put);
    }
  }

  /** Another image is the product's primary now. */
  ghost predicate OtherPrimary(t: Table, product: nat, pk: nat) {
    exists k <- t :: k != pk && t[k].product == product && t[k].isPrimary
  }

  /**
    The constraint fires in `update_image` exactly when the update does not ask for the flag, the loaded row had it,
    and another image has taken it since: the demotion runs only for a requested flag, but the whole row is saved.
   */
  lemma UpdateSafeExactlyWhenFlagStillHeld(t: Table, pk: nat, loaded: Image, data: Data)
    requires OnePrimary(t)
    ensures Safe(t, UpdateImageWrites(pk, loaded, data))
            <==> !(data.isPrimary.None? && loaded.isPrimary && OtherPrimary(t, loaded.product, pk))
  {
    var put := Put(pk, Changed(loaded, data));
    if data.isPrimary == Some(true) {
      assert UpdateImageWrites(pk, loaded, data) == [Demote(loaded.product, Some(pk)), put];
      TwoWrites(t, Demote(loaded.product, Some(pk)), put);
    } else {
      assert UpdateImageWrites(pk, loaded, data) == [put];
      OneWrite(t, put);
      var t' := Apply(t, put);
      if OtherPrimary(t, loaded.product, pk) {
        var k :| k in t && k != pk && t[k].product == loaded.product && t[k].isPrimary;
        assert t'[k] == t[k] && t'[pk] == put.image;
        assert put.image.isPrimary ==> !OnePrimary(t');
      }
    }
  }

  /******* Runs *******/

  datatype State = State(images: Table, nextPk: nat, nextProduct: nat)

  datatype Event =
    | NewProduct(uploads: seq<Upload>)
    | NewImage(product: nat, upload: Upload)
    | ChangeImage(pk: nat, data: Data)
    | RemoveImage(pk: nat)
    | RemoveProduct(product: nat)

  /** The writes of one operation that loads the rows it changes. */
  function Writes(s: State, e: Event): seq<Write> {
    match e
    case NewProduct(uploads) => CreateProductWrites(s.nextProduct, uploads, s.nextPk, false)
    case NewImage(product, upload) =>
      if product < s.nextProduct then CreateImageWrites(product, upload, s.nextPk) else []
    case ChangeImage(pk, data) => if pk in s.images then UpdateImageWrites(pk, s.images[pk], data) else []
    case RemoveImage(pk) => [Drop({pk})]
    case RemoveProduct(product) => [Drop(set k <- s.images | s.images[k].product == product)]
  }

  function Step(s: State, e: Event): State {
    State(ApplyAll(s.images, Writes(s, e)),
          s.nextPk + (if e.NewProduct? then |e.uploads| else if e.NewImage? then 1 else 0),
          s.nextProduct + (if e.NewProduct? then 1 else 0))
  }

  ghost predicate Valid(s: State) {
    OnePrimary(s.images) && forall k <- s.images :: k < s.nextPk && s.images[k].product < s.nextProduct
  }

  lemma {:induction false} SafeEnds(t: Table, writes: seq<Write>)
    requires Safe(t, writes)
    ensures OnePrimary(ApplyAll(t, writes))
    decreases |writes|
  {
    if writes != [] { SafeEnds(Apply(t, writes[0]), writes[1..]); }
  }

  lemma UpdateApplied(t: Table, pk: nat, loaded: Image, data: Data)
    ensures ApplyAll(t, UpdateImageWrites(pk, loaded, data))
            == (if data.isPrimary == Some(true) then Demoted(t, loaded.product, Some(pk)) else t)
               [pk := Changed(loaded, data)]
  {
    var put := Put(pk, Changed(loaded, data));
    if data.isPrimary == Some(true) {
      assert UpdateImageWrites(pk, loaded, data) == [Demote(loaded.product, Some(pk)), put];
      TwoWrites(t, Demote(loaded.product, Some(pk)), put);
    } else {
      assert UpdateImageWrites(pk, loaded, data) == [put];
      OneWrite(t, put);
    }
  }

  /**
    After an update the row has each given field as given and each other field as loaded; a given file takes the old
    variants away. Every other row keeps all but the flag, which a requested one takes from the product's images.
   */
  lemma UpdateEffect(t: Table, pk: nat, loaded: Image, data: Data)
    ensures var t' := ApplyAll(t, UpdateImageWrites(pk, loaded, data));
            && t'.Keys == t.Keys + {pk} && t'[pk].product == loaded.product
            && (data.isPrimary == None ==> t'[pk].isPrimary == loaded.isPrimary)
            && (forall flag :: data.isPrimary == Some(flag) ==> t'[pk].isPrimary == flag)
            && (data.file == None ==> t'[pk].file == loaded.file && t'[pk].sources == loaded.sources)
            && (forall file :: data.file == Some(file) ==> t'[pk].file == file && t'[pk].sources == [])
            && (data.altText == None ==> t'[pk].altText == loaded.altText)
            && (forall text :: data.altText == Some(text) ==> t'[pk].altText == text)
            && (data.sortOrder == None ==> t'[pk].sortOrder == loaded.sortOrder)
            && (forall n :: data.sortOrder == Some(n) ==> t'[pk].sortOrder == n)
            && forall k <- t :: k != pk ==>
                 KeptBut(t, t', k, data.isPrimary == Some(true) && t[k].product == loaded.product)
  {
    UpdateApplied(t, pk, loaded, data);
  }

  /** A removal takes exactly the image away, and a removed product exactly its images. */
  lemma RemovalEffect(s: State, e: Event)
    requires e.RemoveImage? || e.RemoveProduct?
    ensures var t := Step(s, e);
            && (forall k :: k in t.images <==>
                  k in s.images && if e.RemoveImage? then k != e.pk else s.images[k].product != e.product)
            && forall k <- t.images :: t.images[k] == s.images[k]
  {
    OneWrite(s.images, Writes(s, e)[0]);
    assert Writes(s, e) == [Writes(s, e)[0]];
  }

  /** The demotion is always allowed; the save is exactly when the whole update is. */
  lemma UpdateSafe(t: Table, pk: nat, loaded: Image, data: Data)
    requires OnePrimary(t)
    ensures var m := if data.isPrimary == Some(true) then Demoted(t, loaded.product, Some(pk)) else t;
            && OnePrimary(m)
            && (OnePrimary(m[pk := Changed(loaded, data)]) <==>
                !(data.isPrimary.None? && loaded.isPrimary && OtherPrimary(t, loaded.product, pk)))
  {
    UpdateSafeExactlyWhenFlagStillHeld(t, pk, loaded, data);
    var put := Put(pk, Changed(loaded, data));
    if data.isPrimary == Some(true) {
      assert UpdateImageWrites(pk, loaded, data) == [Demote(loaded.product, Some(pk)), put];
      TwoWrites(t, Demote(loaded.product, Some(pk)), put);
    } else {
      assert UpdateImageWrites(pk, loaded, data) == [put];
      OneWrite(t, put);
    }
  }

  lemma WritesSafe(s: State, e: Event)
    requires Valid(s)
    ensures Safe(s.images, Writes(s, e))
  {
    match e
    case NewProduct(uploads) => CreateProductSafe(s.images, s.nextProduct, uploads, s.nextPk, false);
    case NewImage(product, upload) =>
      if product < s.nextProduct { CreateImageEffect(s.images, product, upload, s.nextPk); }
    case ChangeImage(pk, data) =>
      if pk in s.images { UpdateSafeExactlyWhenFlagStillHeld(s.images, pk, s.images[pk], data); }
    case RemoveImage(_) =>
    case RemoveProduct(_) =>
  }

  lemma StepValid(s: State, e: Event)
    requires Valid(s)
    ensures Valid(Step(s, e))
  {
    WritesSafe(s, e);
    SafeEnds(s.images, Writes(s, e));
    match e
    case NewProduct(uploads) => CreateProductKeepsFirstClaim(s.images, s.nextProduct, uploads, s.nextPk, false);
    case NewImage(product, upload) =>
      if product < s.nextProduct { CreateImageApplied(s.images, product, upload, s.nextPk); }
    case ChangeImage(pk, data) => if pk in s.images { UpdateApplied(s.images, pk, s.images[pk], data); }
    case RemoveImage(pk) => OneWrite(s.images, Drop({pk}));
    case RemoveProduct(product) => OneWrite(s.images, Drop(set k <- s.images | s.images[k].product == product));
  }

  function Run(s: State, events: seq<Event>): State
    decreases |events|
  {
    if events == [] then s else Run(Step(s, events[0]), events[1..])
  }

  lemma {:induction false} RunValid(s: State, events: seq<Event>)
    requires Valid(s)
    ensures Valid(Run(s, events))
    decreases |events|
  {
    if events != [] {
      StepValid(s, events[0]);
      RunValid(Step(s, events[0]), events[1..]);
    }
  }

  /** Whatever operations have run, no write of the next one makes the constraint fire. */
  lemma ConstraintNeverFires(events: seq<Event>, e: Event)
    ensures var s := Run(State(map[], 0, 0), events); Safe(s.images, Writes(s, e))
  {
    RunValid(State(map[], 0, 0), events);
    WritesSafe(Run(State(map[], 0, 0), events), e);
  }

  /** A product with a primary and another image. */
  function Pair(text: string): seq<Event> { [NewProduct([Upload(true, text, text, 0), Upload(false, text, text, 1)])] }

  function First(text: string): Image { Image(0, true, text, [], text, 0) }

  function Second(text: string, isPrimary: bool): Image { Image(0, isPrimary, text, [], text, 1) }

  lemma CreatedPair(text: string)
    ensures Run(State(map[], 0, 0), Pair(text))
            == State(map[0 := First(text), 1 := Second(text, false)], 2, 1)
  {
    var uploads := [Upload(true, text, text, 0), Upload(false, text, text, 1)];
    var writes := [Put(0, First(text)), Put(1, Second(text, false))];
    assert uploads[1..] == [Upload(false, text, text, 1)] && [Upload(false, text, text, 1)][1..] == [];
    assert CreateProductWrites(0, [], 2, true) == [];
    assert CreateProductWrites(0, [Upload(false, text, text, 1)], 1, true) == [writes[1]] + [];
    assert CreateProductWrites(0, uploads, 0, false) == [writes[0]] + [writes[1]] == writes;
    TwoWrites(map[], writes[0], writes[1]);
    assert Pair(text)[1..] == [];
  }

  /**
    Of that pair, one request promotes the second image, and another, which had loaded the first before, then changes
    only its text: the constraint fires.
   */
  lemma StaleRowBreaksConstraint(text: string, other: string)
    ensures var s := Run(State(map[], 0, 0), Pair(text));
            && 0 in s.images && s.images[0] == First(text)
            && var t := Step(s, ChangeImage(1, Data(Some(true), None, None, None)));
               && OnePrimary(t.images)
               && !Safe(t.images, UpdateImageWrites(0, s.images[0], Data(None, None, Some(other), None)))
  {
    CreatedPair(text);
    var s := Run(State(map[], 0, 0), Pair(text));
    var t := Step(s, ChangeImage(1, Data(Some(true), None, None, None)));
    RunValid(State(map[], 0, 0), Pair(text));
    StepValid(s, ChangeImage(1, Data(Some(true), None, None, None)));
    UpdateApplied(s.images, 1, Second(text, false), Data(Some(true), None, None, None));
    assert t.images[1] == Second(text, true);
    UpdateSafeExactlyWhenFlagStillHeld(t.images, 0, First(text), Data(None, None, Some(other), None));
  }

  /******* The source's methods *******/

  /** The image table; the database refuses a write whose result breaks the constraint. */
  class Gallery {
    var images: Table
    var nextPk: nat

    constructor ()
      ensures images == map[] && nextPk == 0
    {
      images, nextPk := map[], 0;
    }

    method Issue(w: Write) returns (done: bool)
      modifies this`images
      ensures done == OnePrimary(Apply(old(images), w))
      ensures images == if done then Apply(old(images), w) else old(images)
    {
      done := OnePrimary(Apply(images, w));
      if !done { return; }
      match w {
        case Put(pk, image) => images := images[pk := image];
        case Demote(product, spared) =>
          images := map k <- images ::
            if images[k].product == product && spared != Some(k) then images[k].(isPrimary := false) else images[k];
        case Drop(pks) => images := images - pks;
      }
    }

    /** The image part of `create_product`; no write is refused. */
    method CreateImages(product: nat, uploads: seq<Upload>)
      requires OnePrimary(images) && NoPrimary(images, product) && forall k <- images :: k < nextPk
      modifies this`images, this`nextPk
      ensures images == ApplyAll(old(images), CreateProductWrites(product, uploads, old(nextPk), false))
      ensures nextPk == old(nextPk) + |uploads|
    {
      var primaryClaimed := false;
      for i := 0 to |uploads|
        invariant nextPk == old(nextPk) + i && OnePrimary(images) && forall k <- images :: k < nextPk
        invariant !primaryClaimed ==> NoPrimary(images, product)
        invariant ApplyAll(old(images), CreateProductWrites(product, uploads, old(nextPk), false))
                  == ApplyAll(images, CreateProductWrites(product, uploads[i..], nextPk, primaryClaimed))
      {
        var upload := uploads[i];
        var isPrimary := upload.isPrimary;
        if isPrimary {
          if primaryClaimed { isPrimary := false; } else { primaryClaimed := true; }
        }
        assert uploads[i..][1..] == uploads[i + 1..];
        ghost var rest := CreateProductWrites(product, uploads[i + 1..], nextPk + 1, primaryClaimed);
        assert ([Put(nextPk, Row(product, upload, isPrimary))] + rest)[1..] == rest;
        var done := Issue(Put(nextPk, Row(product, upload, isPrimary)));
        assert done;
        nextPk := nextPk + 1;
      }
    }

    method CreateImage(product: nat, upload: Upload) returns (pk: nat)
      requires OnePrimary(images) && forall k <- images :: k < nextPk
      modifies this`images, this`nextPk
      ensures pk == old(nextPk) && nextPk == pk + 1
      ensures images == ApplyAll(old(images), CreateImageWrites(product, upload, pk))
    {
      pk := nextPk;
      CreateImageEffect(images, product, upload, pk);
      CreateImageApplied(images, product, upload, pk);
      var done := true;
      if upload.isPrimary { done := Issue(Demote(product, None)); }
      assert done;
      done := Issue(Put(pk, Row(product, upload, upload.isPrimary)));
      assert done;
      nextPk := nextPk + 1;
    }

    /** Answers whether the update went through; a refused write undoes the whole transaction. */
    method UpdateImage(pk: nat, loaded: Image, data: Data) returns (done: bool)
      requires OnePrimary(images)
      modifies this`images
      ensures done <==> !(data.isPrimary.None? && loaded.isPrimary && OtherPrimary(old(images), loaded.product, pk))
      ensures images == if done then ApplyAll(old(images), UpdateImageWrites(pk, loaded, data)) else old(images)
    {
      var before := images;
      UpdateApplied(images, pk, loaded, data);
      UpdateSafe(images, pk, loaded, data);
      if data.isPrimary == Some(true) {
        done := Issue(Demote(loaded.product, Some(pk)));
        assert done;
      }
      done := Issue(Put(pk, Changed(loaded, data)));
      if !done { images := before; }
    }
  }
}
