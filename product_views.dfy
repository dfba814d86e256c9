/**
  The two product endpoints: the list/create view and the
  retrieve/update/destroy view. Each picks a serializer from the HTTP method
  (and, for listing, the device type), works on active products only, and
  answers a valid or an invalid payload. Saving runs the product `pre_save`
  receiver, whose `ValueError` reaches the exception handler.
 */
module ProductViews {
  import opened Values
  import opened ExceptionHandler
  import opened ProductSignals

  datatype SerializerClass = ProductCreateSerializer | ProductListSerializer | ProductDetailSerializer

  /**
    `ProductListCreateAPIView.get_serializer_class`: POST creates; otherwise a
    request without a `device_type` attribute counts as "WEB", which lists,
    and any other device type gets the detail form.
   */
  function ListCreateSerializerClass(verb: string, deviceType: Option<string>): (r: SerializerClass)
    ensures verb == "POST" ==> r == ProductCreateSerializer
    ensures verb != "POST" ==> (r == ProductListSerializer <==> deviceType.None? || deviceType == Some("WEB"))
    ensures verb != "POST" ==> (r == ProductDetailSerializer <==> deviceType.Some? && deviceType != Some("WEB"))
    ensures r == ProductCreateSerializer ==> verb == "POST"
  {
    if verb == "POST" then ProductCreateSerializer
    else
      var d := if deviceType.Some? then deviceType.value else "WEB";
      if d == "WEB" then ProductListSerializer else ProductDetailSerializer
  }

  /** `ProductRetrieveUpdateDestroyAPIView.get_serializer_class`: PUT and PATCH write, GET reads in detail, the rest list. */
  function DetailSerializerClass(verb: string): (r: SerializerClass)
    ensures r == ProductCreateSerializer <==> verb == "PUT" || verb == "PATCH"
    ensures r == ProductDetailSerializer <==> verb == "GET"
    ensures r == ProductListSerializer <==> verb != "PUT" && verb != "PATCH" && verb != "GET"
  {
    if verb in ["PUT", "PATCH"] then ProductCreateSerializer
    else if verb == "GET" then ProductDetailSerializer
    else ProductListSerializer
  }

  /** A row of the product table. */
  datatype ProductRow = ProductRow(id: nat, title: string, price: real, discount: int, realPrice: real, isActive: bool)

  /** Product ids are unique. */
  predicate UniqueIds(products: seq<ProductRow>)
  {
    forall i, j :: 0 <= i < j < |products| ==> products[i].id != products[j].id
  }

  /** Both views' `get_queryset`: the active products, in table order. */
  function ActiveProducts(products: seq<ProductRow>): (r: seq<ProductRow>)
    ensures forall p :: p in r <==> p in products && p.isActive
    ensures |r| <= |products|
    decreases |products|
  {
    if |products| == 0 then []
    else (if products[0].isActive then [products[0]] else []) + ActiveProducts(products[1..])
  }

  /** The response a view builds, or the exception it lets escape to the handler. */
  datatype ViewResult =
    | Success(messageKey: string, data: Option<ProductRow>, status: int)
    | Failure(messageKey: string, errors: map<string, string>, errorStatus: Option<int>)
    | Escaped(exc: Exc)

  /** A view's result together with the product table it leaves behind. */
  datatype Outcome = Outcome(result: ViewResult, products: seq<ProductRow>)

  /** The fields a valid create payload provides; `real_price` is excluded from the create serializer. */
  datatype ProductData = ProductData(title: string, price: real, discount: int, isActive: bool)

  /** The `ValueError` the `pre_save` receiver raises, as it reaches the handler. */
  function ValueError(message: string): Exc
  {
    Raised("ValueError", message, {})
  }

  /**
    `serializer.save()` on a row: the `pre_save` receiver recomputes the real
    price or raises, and only a row it accepts is written.
   */
  function SaveRow(row: ProductRow): (r: Result<ProductRow, Exc>)
    ensures r.Ok? <==> RealPriceRule(row.price, row.discount).Ok?
    ensures r.Ok? ==> r.value == row.(realPrice := RealPriceRule(row.price, row.discount).value)
    ensures r.Err? ==> r.error == ValueError(NegativeMessage)
  {
    match RealPriceRule(row.price, row.discount)
    case Ok(p) => Ok(row.(realPrice := p))
    case Err(m) => Err(ValueError(m))
  }

  /**
    `ProductListCreateAPIView.create`. `validation` is the outcome of
    `is_valid()`: the validated data or the serializer's errors. A valid
    payload is saved under `nextId` and answered with 201 and the product;
    an invalid one is answered with `VALIDATION_ERROR` and nothing is saved.
   */
  function Create(products: seq<ProductRow>, nextId: nat, validation: Result<ProductData, map<string, string>>): (o: Outcome)
    ensures validation.Err? ==>
      o == Outcome(Failure("VALIDATION_ERROR", validation.error, None), products)
    ensures validation.Ok? && validation.value.discount > 0 ==>
      && o.result.Success? && o.result.messageKey == "SUCCESS_MESSAGE" && o.result.status == 201
      && o.result.data.Some? && o.products == products + [o.result.data.value]
      && var d := validation.value;
         o.result.data.value == ProductRow(nextId, d.title, d.price, d.discount, Discounted(d.price, d.discount), d.isActive)
    ensures validation.Ok? && validation.value.discount <= 0 ==>
      o == Outcome(Escaped(ValueError(NegativeMessage)), products)
  {
    match validation
    case Err(errors) => Outcome(Failure("VALIDATION_ERROR", errors, None), products)
    case Ok(d) =>
      // The receiver sets `real_price` before the row is written; 0 stands for the unset value.
      var row := ProductRow(nextId, d.title, d.price, d.discount, 0.0, d.isActive);
      match SaveRow(row)
      case Ok(saved) => Outcome(Success("SUCCESS_MESSAGE", Some(saved), 201), products + [saved])
      case Err(e) => Outcome(Escaped(e), products)
  }

  /** With `nextId` above every id in the table, a create keeps ids unique and below the next id. */
  lemma CreateKeepsUniqueIds(products: seq<ProductRow>, nextId: nat, validation: Result<ProductData, map<string, string>>)
    requires UniqueIds(products) && forall p :: p in products ==> p.id < nextId
    ensures var o := Create(products, nextId, validation);
      UniqueIds(o.products) && forall p :: p in o.products ==> p.id < nextId + 1
  {
    var o := Create(products, nextId, validation);
    if o.products != products {
      assert o.products == products + [o.result.data.value];
      forall i | 0 <= i < |products|
        ensures o.products[i].id != o.products[|products|].id
      {
        assert products[i] in products;
      }
    }
  }

  /**
    A valid create with the model's default discount of 0 is not saved; the
    handler answers it as an unknown error.
   */
  lemma CreateWithoutDiscountFails(products: seq<ProductRow>, nextId: nat, d: ProductData, context: map<string, string>)
    requires d.discount == 0
    ensures Create(products, nextId, Ok(d)).products == products
    ensures Dispatch(Create(products, nextId, Ok(d)).result.exc, context).messageKey == "UNKNOWN_ERROR"
  {
    var e := ValueError(NegativeMessage);
    assert KnownCode(e.isA).None? by {
      assert FirstCode({}, Mapping()) == None;
    }
  }

  /** `get_object()`: the index of the active product with primary key `pk`. */
  function FindActive(products: seq<ProductRow>, pk: nat): (r: Option<nat>)
    ensures r.Some? ==> r.value < |products| && products[r.value].id == pk && products[r.value].isActive
    ensures r.None? <==> forall i :: 0 <= i < |products| ==> !(products[i].id == pk && products[i].isActive)
    decreases |products|
  {
    if |products| == 0 then None
    else if products[0].id == pk && products[0].isActive then Some(0)
    else
      var rest := FindActive(products[1..], pk);
      if rest.Some? then Some(rest.value + 1) else None
  }

  /** The `Http404` a lookup of a missing or inactive product raises. */
  function NotFoundError(): Exc
  {
    Raised("Http404", "No Product matches the given query.", {Http404})
  }

  /** An inactive product cannot be reached through these views: the handler answers `NOT_FOUND`. */
  lemma InactiveNotFound(products: seq<ProductRow>, pk: nat, context: map<string, string>)
    requires UniqueIds(products)
    requires exists i :: 0 <= i < |products| && products[i].id == pk && !products[i].isActive
    ensures FindActive(products, pk).None?
    ensures Dispatch(NotFoundError(), context).messageKey == "NOT_FOUND"
  {
    KnownCodes();
  }

  /** `retrieve`: the product in the chosen form with 200, or the `Http404`. */
  function Retrieve(products: seq<ProductRow>, pk: nat): (r: ViewResult)
    ensures r.Success? <==> FindActive(products, pk).Some?
    ensures r.Success? ==> r.status == 200 && r.data.Some? && r.data.value in ActiveProducts(products) && r.data.value.id == pk
    ensures !r.Success? ==> r == Escaped(NotFoundError())
  {
    var i := FindActive(products, pk);
    if i.None? then Escaped(NotFoundError())
    else
      assert products[i.value] in products;
      Success("SUCCESS_MESSAGE", Some(products[i.value]), 200)
  }

  /** The fields a partial update carries; an absent field keeps its value. */
  datatype ProductPatch = ProductPatch(title: Option<string>, price: Option<real>, discount: Option<int>,
                                       isActive: Option<bool>)

  function Pick<T>(v: Option<T>, current: T): T
  {
    if v.Some? then v.value else current
  }

  /** `serializer.save()` with `partial=True`: the given fields overwrite, the rest stay. */
  function ApplyPatch(row: ProductRow, patch: ProductPatch): (r: ProductRow)
    ensures r.id == row.id && r.realPrice == row.realPrice
    ensures patch.title.None? ==> r.title == row.title
    ensures patch.price.None? ==> r.price == row.price
    ensures patch.discount.None? ==> r.discount == row.discount
    ensures patch.isActive.None? ==> r.isActive == row.isActive
    ensures patch.title.Some? ==> r.title == patch.title.value
    ensures patch.price.Some? ==> r.price == patch.price.value
    ensures patch.discount.Some? ==> r.discount == patch.discount.value
    ensures patch.isActive.Some? ==> r.isActive == patch.isActive.value
  {
    ProductRow(row.id, Pick(patch.title, row.title), Pick(patch.price, row.price),
               Pick(patch.discount, row.discount), row.realPrice, Pick(patch.isActive, row.isActive))
  }

  /**
    `ProductRetrieveUpdateDestroyAPIView.update`: a missing or inactive product
    raises `Http404`; invalid data answers `VALIDATION_ERROR` with 400 and
    saves nothing; valid data is applied partially, saved through the
    receiver, and answered with `UPDATED_SUCCESSFULLY` and 200.
   */
  function Update(products: seq<ProductRow>, pk: nat, validation: Result<ProductPatch, map<string, string>>): (o: Outcome)
    ensures FindActive(products, pk).None? ==> o == Outcome(Escaped(NotFoundError()), products)
    ensures FindActive(products, pk).Some? && validation.Err? ==>
      o == Outcome(Failure("VALIDATION_ERROR", validation.error, Some(400)), products)
    ensures o.result.Success? ==>
      && validation.Ok? && FindActive(products, pk).Some?
      && o.result.messageKey == "UPDATED_SUCCESSFULLY" && o.result.status == 200
      && o.result.data.Some?
      && o.products == products[FindActive(products, pk).value := o.result.data.value]
    ensures !o.result.Success? ==> o.products == products
    ensures FindActive(products, pk).Some? && validation.Ok? ==>
      var row := ApplyPatch(products[FindActive(products, pk).value], validation.value);
      && (row.discount > 0 ==>
            o.result == Success("UPDATED_SUCCESSFULLY", Some(row.(realPrice := Discounted(row.price, row.discount))), 200))
      && (row.discount <= 0 ==> o == Outcome(Escaped(ValueError(NegativeMessage)), products))
  {
    var i := FindActive(products, pk);
    if i.None? then Outcome(Escaped(NotFoundError()), products)
    else
      match validation
      case Err(errors) => Outcome(Failure("VALIDATION_ERROR", errors, Some(400)), products)
      case Ok(patch) =>
        match SaveRow(ApplyPatch(products[i.value], patch))
        case Ok(saved) => Outcome(Success("UPDATED_SUCCESSFULLY", Some(saved), 200), products[i.value := saved])
        case Err(e) => Outcome(Escaped(e), products)
  }

  /**
    An update that succeeds changes only the product asked for: its patched
    fields and its recomputed real price. Every other row stays as it was.
   */
  lemma UpdateChangesOneProduct(products: seq<ProductRow>, pk: nat, patch: ProductPatch)
    requires Update(products, pk, Ok(patch)).result.Success?
    ensures var o := Update(products, pk, Ok(patch));
      var i := FindActive(products, pk).value;
      var row := ApplyPatch(products[i], patch);
      && o.result.data == Some(row.(realPrice := Discounted(row.price, row.discount)))
      && row.discount > 0
      && |o.products| == |products|
      && (forall j :: 0 <= j < |products| && j != i ==> o.products[j] == products[j])
  {
    var i := FindActive(products, pk).value;
    var row := ApplyPatch(products[i], patch);
    DiscountedIsShare(row.price, row.discount);
  }

  /** An update never changes an id, so it keeps ids unique. */
  lemma UpdateKeepsUniqueIds(products: seq<ProductRow>, pk: nat, validation: Result<ProductPatch, map<string, string>>)
    requires UniqueIds(products)
    ensures var o := Update(products, pk, validation);
      |o.products| == |products| && (forall j :: 0 <= j < |products| ==> o.products[j].id == products[j].id)
      && UniqueIds(o.products)
  {
  }

  /** An update with no fields keeps every field and only recomputes the real price. */
  lemma EmptyPatchKeepsFields(products: seq<ProductRow>, pk: nat)
    requires FindActive(products, pk).Some?
    requires products[FindActive(products, pk).value].discount > 0
    ensures var o := Update(products, pk, Ok(ProductPatch(None, None, None, None)));
      var old_ := products[FindActive(products, pk).value];
      o.result.Success? && o.result.data == Some(old_.(realPrice := Discounted(old_.price, old_.discount)))
  {
    var old_ := products[FindActive(products, pk).value];
    DiscountedIsShare(old_.price, old_.discount);
  }

  /** `destroy`: the active product with `pk` is removed and 204 answered, or `Http404` is raised. */
  function Destroy(products: seq<ProductRow>, pk: nat): (o: Outcome)
    requires UniqueIds(products)
    ensures FindActive(products, pk).None? ==> o == Outcome(Escaped(NotFoundError()), products)
    ensures FindActive(products, pk).Some? ==>
      && o.result == Success("DELETED_SUCCESSFULLY", None, 204)
      && |o.products| == |products| - 1
      && (forall p :: p in o.products ==> p.id != pk)
      && (forall p :: p in products && p.id != pk ==> p in o.products)
  {
    var i := FindActive(products, pk);
    if i.None? then Outcome(Escaped(NotFoundError()), products)
    else
      var rest := products[..i.value] + products[i.value + 1..];
      Outcome(Success("DELETED_SUCCESSFULLY", None, 204), rest)
  }
}
