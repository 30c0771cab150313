/**
 * The storefront's request handlers, as far as they decide anything: which
 * collection a request reads or writes, the filter and row cap a listing
 * passes to the document store, and what a create request stores. The store
 * itself is outside the model; how it applies a filter is stated once, as a
 * conjunction of field conditions over a view of the stored document.
 */
module Catalog {
  import opened Wrappers
  import opened Schemas

  // ---------- Store filters ----------

  /** A condition on one field: exact match, case-insensitive regular expression, or inclusive numeric range. */
  datatype Condition =
    | Exact(value: string)
    | RegexCI(pattern: string)
    | Range(gte: Option<real>, lte: Option<real>)

  /** A filter: the conditions to meet, by dotted field path; all of them must hold. */
  type Filter = map<string, Condition>

  /** A read of at most `limit` documents of `collection` that satisfy `filter`. */
  datatype Find = Find(collection: string, filter: Filter, limit: int)

  /**
   * A stored document as the store's matcher sees it: the text values and
   * the numbers reachable under each dotted path, one per element when the
   * path runs through an embedded list.
   */
  datatype DocumentView = DocumentView(texts: map<string, seq<string>>, numbers: map<string, seq<real>>)

  /**
   * Whether a document meets one condition. `searchCI(pattern, text)` is the
   * store's case-insensitive regular-expression search, which is not modelled.
   */
  predicate Satisfies(d: DocumentView, path: string, c: Condition, searchCI: (string, string) -> bool) {
    match c
    case Exact(v) => path in d.texts && v in d.texts[path]
    case RegexCI(pattern) => path in d.texts && exists t :: t in d.texts[path] && searchCI(pattern, t)
    case Range(lo, hi) =>
      path in d.numbers &&
      exists x :: x in d.numbers[path] && (lo.Some? ==> lo.value <= x) && (hi.Some? ==> x <= hi.value)
  }

  /** A document matches a filter when it meets every condition of it. */
  predicate Matches(d: DocumentView, flt: Filter, searchCI: (string, string) -> bool) {
    forall path :: path in flt ==> Satisfies(d, path, flt[path], searchCI)
  }

  function VariantHexes(vs: seq<ProductVariant>): (hs: seq<string>)
    ensures |hs| == |vs| && forall i :: 0 <= i < |vs| ==> hs[i] == vs[i].hex
  {
    seq(|vs|, i requires 0 <= i < |vs| => vs[i].hex)
  }

  function VariantFinishes(vs: seq<ProductVariant>): (fs: seq<string>)
    ensures |fs| == |vs| && forall i :: 0 <= i < |vs| ==> fs[i] == FinishName(vs[i].finish)
  {
    seq(|vs|, i requires 0 <= i < |vs| => FinishName(vs[i].finish))
  }

  function VariantColorNames(vs: seq<ProductVariant>): seq<string> {
    seq(|vs|, i requires 0 <= i < |vs| => vs[i].colorName)
  }

  function VariantStocks(vs: seq<ProductVariant>): seq<real> {
    seq(|vs|, i requires 0 <= i < |vs| => vs[i].stock as real)
  }

  /** A stored product, under the field names of the schema. */
  function ProductView(p: Product): DocumentView {
    DocumentView(
      map["title" := [p.title], "description" := [p.description], "category" := [p.category],
          "usage" := [UsageName(p.usage)], "variants.color_name" := VariantColorNames(p.variants),
          "variants.hex" := VariantHexes(p.variants), "variants.finish" := VariantFinishes(p.variants),
          "images" := p.images]
      + (if p.techSheetUrl.Some? then map["tech_sheet_url" := [p.techSheetUrl.value]] else map[]),
      map["base_price" := [p.basePrice], "variants.stock" := VariantStocks(p.variants)])
  }

  /** A stored review, under the field names of the schema. */
  function ReviewView(r: Review): DocumentView {
    DocumentView(
      map["product_id" := [r.productId], "author" := [r.author]]
      + (if r.comment.Some? then map["comment" := [r.comment.value]] else map[]),
      map["rating" := [r.rating as real]])
  }

  lemma {:induction false} EmptyFilterMatchesAll(d: DocumentView, searchCI: (string, string) -> bool)
    ensures Matches(d, map[], searchCI)
  {
  }

  // ---------- GET /api/products ----------

  /** The query parameters of the product listing; absent ones are None. */
  datatype ProductParams = ProductParams(
    category: Option<string>, color: Option<string>, finish: Option<string>, usage: Option<string>,
    q: Option<string>, minPrice: Option<real>, maxPrice: Option<real>, limit: Option<int>)

  /** Python truthiness of an optional string: given and not empty. */
  predicate Given(s: Option<string>) {
    s.Some? && s.value != ""
  }

  const ProductFilterFields: set<string> :=
    {"category", "usage", "title", "variants.hex", "variants.finish", "base_price"}

  const DefaultProductLimit: int := 50

  /** The condition the product listing puts on `field`, if any. */
  function ProductCondition(p: ProductParams, field: string): Option<Condition> {
    if field == "category" then (if Given(p.category) then Some(Exact(p.category.value)) else None)
    else if field == "usage" then (if Given(p.usage) then Some(Exact(p.usage.value)) else None)
    else if field == "title" then (if Given(p.q) then Some(RegexCI(p.q.value)) else None)
    else if field == "variants.hex" then (if Given(p.color) then Some(Exact(p.color.value)) else None)
    else if field == "variants.finish" then (if Given(p.finish) then Some(Exact(p.finish.value)) else None)
    else if field == "base_price" && (p.minPrice.Some? || p.maxPrice.Some?) then Some(Range(p.minPrice, p.maxPrice))
    else None
  }

  /**
   * The filter the product listing builds: one condition per non-empty text
   * parameter (the search text `q` on the title, case-insensitively), and a
   * price range as soon as one price bound is given, zero included.
   */
  function ProductFilter(p: ProductParams): (flt: Filter)
    ensures flt.Keys <= ProductFilterFields
    ensures "category" in flt <==> Given(p.category)
    ensures "category" in flt ==> flt["category"] == Exact(p.category.value)
    ensures "usage" in flt <==> Given(p.usage)
    ensures "usage" in flt ==> flt["usage"] == Exact(p.usage.value)
    ensures "title" in flt <==> Given(p.q)
    ensures "title" in flt ==> flt["title"] == RegexCI(p.q.value)
    ensures "variants.hex" in flt <==> Given(p.color)
    ensures "variants.hex" in flt ==> flt["variants.hex"] == Exact(p.color.value)
    ensures "variants.finish" in flt <==> Given(p.finish)
    ensures "variants.finish" in flt ==> flt["variants.finish"] == Exact(p.finish.value)
    ensures "base_price" in flt <==> p.minPrice.Some? || p.maxPrice.Some?
    ensures "base_price" in flt ==> flt["base_price"] == Range(p.minPrice, p.maxPrice)
  {
    FilterOver(p, ProductFilterFields)
  }

  /** The listing's conditions on the fields in `fields` only. */
  function FilterOver(p: ProductParams, fields: set<string>): Filter {
    map field | field in fields && ProductCondition(p, field).Some? :: ProductCondition(p, field).value
  }

  /** Examining one more field adds its condition, if there is one, and changes nothing else. */
  lemma FilterOverExtend(p: ProductParams, fields: set<string>, field: string)
    ensures FilterOver(p, fields + {field}) ==
      if ProductCondition(p, field).Some? then FilterOver(p, fields)[field := ProductCondition(p, field).value]
      else FilterOver(p, fields)
  {
  }

  /**
   * GET /api/products: builds the filter one key at a time, in the order the
   * parameters are examined, and reads the product collection with it.
   */
  method ListProducts(p: ProductParams) returns (query: Find)
    ensures query.collection == CollectionName(ProductKind)
    ensures query.filter == ProductFilter(p)
    ensures query.limit == p.limit.GetOr(50)
  {
    var flt: Filter := map[];
    // `examined`: the fields already looked at; `flt` holds exactly their conditions.
    ghost var examined: set<string> := {};
    assert flt == FilterOver(p, examined);
    FilterOverExtend(p, examined, "category");
    if Given(p.category) {
      flt := flt["category" := Exact(p.category.value)];
    }
    examined := examined + {"category"};
    FilterOverExtend(p, examined, "usage");
    if Given(p.usage) {
      flt := flt["usage" := Exact(p.usage.value)];
    }
    examined := examined + {"usage"};
    FilterOverExtend(p, examined, "title");
    if Given(p.q) {
      flt := flt["title" := RegexCI(p.q.value)];
    }
    examined := examined + {"title"};
    FilterOverExtend(p, examined, "variants.hex");
    if Given(p.color) {
      flt := flt["variants.hex" := Exact(p.color.value)];
    }
    examined := examined + {"variants.hex"};
    FilterOverExtend(p, examined, "variants.finish");
    if Given(p.finish) {
      flt := flt["variants.finish" := Exact(p.finish.value)];
    }
    examined := examined + {"variants.finish"};
    FilterOverExtend(p, examined, "base_price");
    if p.minPrice.Some? || p.maxPrice.Some? {
      var priceFilter := Range(None, None);
      if p.minPrice.Some? {
        priceFilter := priceFilter.(gte := p.minPrice);
      }
      if p.maxPrice.Some? {
        priceFilter := priceFilter.(lte := p.maxPrice);
      }
      flt := flt["base_price" := priceFilter];
    }
    examined := examined + {"base_price"};
    assert examined == ProductFilterFields;
    assert CollectionName(ProductKind) == "product" by { CollectionNameSpellings(); }
    query := Find("product", flt, p.limit.GetOr(DefaultProductLimit));
  }

  /** Matching a filter over the listing's fields is meeting each of its six conditions that is present. */
  lemma MatchesByField(d: DocumentView, flt: Filter, searchCI: (string, string) -> bool)
    requires flt.Keys <= ProductFilterFields
    ensures Matches(d, flt, searchCI) <==>
      && ("category" in flt ==> Satisfies(d, "category", flt["category"], searchCI))
      && ("usage" in flt ==> Satisfies(d, "usage", flt["usage"], searchCI))
      && ("title" in flt ==> Satisfies(d, "title", flt["title"], searchCI))
      && ("variants.hex" in flt ==> Satisfies(d, "variants.hex", flt["variants.hex"], searchCI))
      && ("variants.finish" in flt ==> Satisfies(d, "variants.finish", flt["variants.finish"], searchCI))
      && ("base_price" in flt ==> Satisfies(d, "base_price", flt["base_price"], searchCI))
  {
  }

  /** The values a stored product shows under the listing's fields. */
  lemma ProductViewFields(prod: Product)
    ensures var d := ProductView(prod);
      && "category" in d.texts && d.texts["category"] == [prod.category]
      && "usage" in d.texts && d.texts["usage"] == [UsageName(prod.usage)]
      && "title" in d.texts && d.texts["title"] == [prod.title]
      && "variants.hex" in d.texts && d.texts["variants.hex"] == VariantHexes(prod.variants)
      && "variants.finish" in d.texts && d.texts["variants.finish"] == VariantFinishes(prod.variants)
      && "base_price" in d.numbers && d.numbers["base_price"] == [prod.basePrice]
  {
  }

  /**
   * The product listing selects exactly the products that meet every given
   * parameter: the category slug, the usage, the title search, some variant
   * with the colour, some variant with the finish, and the price bounds.
   */
  lemma {:induction false} ProductFilterSelects(p: ProductParams, prod: Product, searchCI: (string, string) -> bool)
    ensures Matches(ProductView(prod), ProductFilter(p), searchCI) <==>
      && (Given(p.category) ==> prod.category == p.category.value)
      && (Given(p.usage) ==> UsageName(prod.usage) == p.usage.value)
      && (Given(p.q) ==> searchCI(p.q.value, prod.title))
      && (Given(p.color) ==> exists i :: 0 <= i < |prod.variants| && prod.variants[i].hex == p.color.value)
      && (Given(p.finish) ==> exists i :: 0 <= i < |prod.variants| && FinishName(prod.variants[i].finish) == p.finish.value)
      && (p.minPrice.Some? ==> p.minPrice.value <= prod.basePrice)
      && (p.maxPrice.Some? ==> prod.basePrice <= p.maxPrice.value)
  {
    var d, flt := ProductView(prod), ProductFilter(p);
    MatchesByField(d, flt, searchCI);
    ProductViewFields(prod);
    if Given(p.q) {
      TitleSelects(prod, p.q.value, searchCI);
    }
    if Given(p.color) {
      HexSelects(prod, p.color.value, searchCI);
    }
    if Given(p.finish) {
      FinishSelects(prod, p.finish.value, searchCI);
    }
    if p.minPrice.Some? || p.maxPrice.Some? {
      PriceSelects(prod, p.minPrice, p.maxPrice, searchCI);
    }
  }

  lemma TitleSelects(prod: Product, q: string, searchCI: (string, string) -> bool)
    ensures Satisfies(ProductView(prod), "title", RegexCI(q), searchCI) <==> searchCI(q, prod.title)
  {
    var d := ProductView(prod);
    ProductViewFields(prod);
    assert prod.title in d.texts["title"];
    assert forall t :: t in d.texts["title"] ==> t == prod.title;
  }

  lemma HexSelects(prod: Product, hex: string, searchCI: (string, string) -> bool)
    ensures Satisfies(ProductView(prod), "variants.hex", Exact(hex), searchCI) <==>
            exists i :: 0 <= i < |prod.variants| && prod.variants[i].hex == hex
  {
    ProductViewFields(prod);
    var hexes := VariantHexes(prod.variants);
    if hex in hexes {
      var i :| 0 <= i < |hexes| && hexes[i] == hex;
      assert prod.variants[i].hex == hex;
    }
  }

  lemma FinishSelects(prod: Product, finish: string, searchCI: (string, string) -> bool)
    ensures Satisfies(ProductView(prod), "variants.finish", Exact(finish), searchCI) <==>
            exists i :: 0 <= i < |prod.variants| && FinishName(prod.variants[i].finish) == finish
  {
    ProductViewFields(prod);
    var finishes := VariantFinishes(prod.variants);
    if finish in finishes {
      var i :| 0 <= i < |finishes| && finishes[i] == finish;
      assert FinishName(prod.variants[i].finish) == finish;
    }
  }

  lemma PriceSelects(prod: Product, lo: Option<real>, hi: Option<real>, searchCI: (string, string) -> bool)
    ensures Satisfies(ProductView(prod), "base_price", Range(lo, hi), searchCI) <==>
            (lo.Some? ==> lo.value <= prod.basePrice) && (hi.Some? ==> prod.basePrice <= hi.value)
  {
    var d := ProductView(prod);
    ProductViewFields(prod);
    assert prod.basePrice in d.numbers["base_price"];
    assert forall x :: x in d.numbers["base_price"] ==> x == prod.basePrice;
  }

  /** An empty text parameter is ignored, while a price bound of 0 is still a bound. */
  lemma EmptyTextIgnoredZeroPriceKept()
    ensures ProductFilter(ProductParams(Some(""), None, None, None, Some(""), Some(0.0), None, None))
         == map["base_price" := Range(Some(0.0), None)]
  {
  }

  /** Category "pitture" priced 10 to 20: of products priced 5, 15 and 25 only the second is listed. */
  lemma PriceRangeExample(searchCI: (string, string) -> bool)
    ensures var p := ProductParams(Some("pitture"), None, None, None, None, Some(10.0), Some(20.0), None);
            var prod := (price: real) => Product("Smalto", "Smalto all'acqua", "pitture", Interno, price, [], None, []);
            && !Matches(ProductView(prod(5.0)), ProductFilter(p), searchCI)
            && Matches(ProductView(prod(15.0)), ProductFilter(p), searchCI)
            && !Matches(ProductView(prod(25.0)), ProductFilter(p), searchCI)
  {
    var p := ProductParams(Some("pitture"), None, None, None, None, Some(10.0), Some(20.0), None);
    var prod := (price: real) => Product("Smalto", "Smalto all'acqua", "pitture", Interno, price, [], None, []);
    ProductFilterSelects(p, prod(5.0), searchCI);
    ProductFilterSelects(p, prod(15.0), searchCI);
    ProductFilterSelects(p, prod(25.0), searchCI);
  }

  // ---------- The other listings ----------

  /** GET /api/categories: every category, at most 50. */
  function ListCategories(): (query: Find)
    ensures query.collection == CollectionName(CategoryKind)
    ensures query.filter == map[] && query.limit == 50
  {
    Find("category", map[], 50)
  }

  /** GET /api/reviews/{product_id}: the reviews of one product, at most 100. */
  function GetReviews(productId: string): (query: Find)
    ensures query.collection == CollectionName(ReviewKind)
    ensures query.filter.Keys == {"product_id"} && query.filter["product_id"] == Exact(productId)
    ensures query.limit == 100
  {
    Find("review", map["product_id" := Exact(productId)], 100)
  }

  /** The review listing selects exactly the reviews of the requested product. */
  lemma {:induction false} GetReviewsSelects(productId: string, r: Review, searchCI: (string, string) -> bool)
    ensures Matches(ReviewView(r), GetReviews(productId).filter, searchCI) <==> r.productId == productId
  {
    var d := ReviewView(r);
    assert d.texts["product_id"] == [r.productId];
    assert Matches(d, GetReviews(productId).filter, searchCI) <==>
           Satisfies(d, "product_id", Exact(productId), searchCI);
  }

  /** GET /api/blog: every post, at most `limit` (20 when not given). */
  function ListBlog(limit: Option<int>): (query: Find)
    ensures query.collection == CollectionName(BlogPostKind)
    ensures query.filter == map[] && query.limit == limit.GetOr(20)
  {
    Find("blogpost", map[], limit.GetOr(20))
  }

  /** GET /api/professionals: every professional, at most `limit` (50 when not given). */
  function ListProfessionals(limit: Option<int>): (query: Find)
    ensures query.collection == CollectionName(ProfessionalKind)
    ensures query.filter == map[] && query.limit == limit.GetOr(50)
  {
    Find("professional", map[], limit.GetOr(50))
  }

  // ---------- The create endpoints ----------

  /** A validated entity, ready to be inserted. */
  datatype Record =
    | CategoryRecord(category: Category)
    | ProductRecord(product: Product)
    | ReviewRecord(review: Review)
    | OrderRecord(order: Order)
    | BlogPostRecord(post: BlogPost)
    | ContactMessageRecord(message: ContactMessage)
    | ProfessionalRecord(professional: Professional)

  /** Insert `record` into `collection` and answer its id (and, for a contact message, a status); or HTTP 422. */
  datatype CreateResponse =
    | Insert(collection: string, record: Record, status: Option<string>)
    | Unprocessable(violations: seq<Violation>)

  /** `resp` carries what validation gave: the validated entity, wrapped as a record, or the validator's own violations. */
  predicate Carries<T>(resp: CreateResponse, r: Result<T, seq<Violation>>, wrap: T -> Record) {
    match resp
    case Insert(_, record, _) => r.Success? && record == wrap(r.value)
    case Unprocessable(violations) => r.Failure? && violations == r.error
  }

  /**
   * The answer to a validation outcome: the validated entity, wrapped as a
   * record, inserted into `collection` (answered with `status` besides its id),
   * or HTTP 422 with the validator's violations.
   */
  function Respond<T>(r: Result<T, seq<Violation>>, collection: string, wrap: T -> Record, status: Option<string>)
    : (resp: CreateResponse)
    ensures Carries(resp, r, wrap)
    ensures resp.Insert? <==> r.Success?
    ensures resp.Insert? ==> resp.collection == collection && resp.status == status
  {
    if r.Success? then Insert(collection, wrap(r.value), status) else Unprocessable(r.error)
  }

  /** POST /api/categories. */
  function CreateCategory(p: CategoryPayload): (resp: CreateResponse)
    ensures Carries(resp, ValidateCategory(p), c => CategoryRecord(c))
    ensures resp.Insert? <==> AcceptsCategory(p)
    ensures resp.Insert? ==> resp.collection == CollectionName(CategoryKind) && resp.status.None?
    ensures resp.Unprocessable? ==> resp.violations != []
  {
    CollectionNameSpellings();
    Respond(ValidateCategory(p), "category", c => CategoryRecord(c), None)
  }

  /** POST /api/products. */
  function CreateProduct(p: ProductPayload): (resp: CreateResponse)
    ensures Carries(resp, ValidateProduct(p), p => ProductRecord(p))
    ensures resp.Insert? <==> AcceptsProduct(p)
    ensures resp.Insert? ==> resp.collection == CollectionName(ProductKind) && resp.status.None?
                             && resp.record.product.Valid()
    ensures resp.Unprocessable? ==> resp.violations != []
  {
    CollectionNameSpellings();
    Respond(ValidateProduct(p), "product", p => ProductRecord(p), None)
  }

  /** POST /api/reviews. */
  function CreateReview(p: ReviewPayload): (resp: CreateResponse)
    ensures Carries(resp, ValidateReview(p), r => ReviewRecord(r))
    ensures resp.Insert? <==> AcceptsReview(p)
    ensures resp.Insert? ==> resp.collection == CollectionName(ReviewKind) && resp.status.None?
                             && resp.record.review.Valid()
    ensures resp.Unprocessable? ==> resp.violations != []
  {
    CollectionNameSpellings();
    Respond(ValidateReview(p), "review", r => ReviewRecord(r), None)
  }

  /** POST /api/orders. */
  function CreateOrder(p: OrderPayload): (resp: CreateResponse)
    ensures Carries(resp, ValidateOrder(p), o => OrderRecord(o))
    ensures resp.Insert? <==> AcceptsOrder(p)
    ensures resp.Insert? ==> resp.collection == CollectionName(OrderKind) && resp.status.None?
                             && resp.record.order.Valid()
    ensures resp.Unprocessable? ==> resp.violations != []
  {
    CollectionNameSpellings();
    Respond(ValidateOrder(p), "order", o => OrderRecord(o), None)
  }

  /** POST /api/blog. */
  function CreateBlogPost(p: BlogPostPayload): (resp: CreateResponse)
    ensures Carries(resp, ValidateBlogPost(p), b => BlogPostRecord(b))
    ensures resp.Insert? <==> AcceptsBlogPost(p)
    ensures resp.Insert? ==> resp.collection == CollectionName(BlogPostKind) && resp.status.None?
    ensures resp.Unprocessable? ==> resp.violations != []
  {
    CollectionNameSpellings();
    Respond(ValidateBlogPost(p), "blogpost", b => BlogPostRecord(b), None)
  }

  /** POST /api/contact: the only endpoint that also answers a status. */
  function CreateContactMessage(p: ContactMessagePayload): (resp: CreateResponse)
    ensures Carries(resp, ValidateContactMessage(p), m => ContactMessageRecord(m))
    ensures resp.Insert? <==> AcceptsContactMessage(p)
    ensures resp.Insert? ==> resp.collection == CollectionName(ContactMessageKind) && resp.status == Some("received")
    ensures resp.Unprocessable? ==> resp.violations != []
  {
    CollectionNameSpellings();
    Respond(ValidateContactMessage(p), "contactmessage", m => ContactMessageRecord(m), Some("received"))
  }

  /** POST /api/professionals. */
  function CreateProfessional(p: ProfessionalPayload): (resp: CreateResponse)
    ensures Carries(resp, ValidateProfessional(p), pro => ProfessionalRecord(pro))
    ensures resp.Insert? <==> AcceptsProfessional(p)
    ensures resp.Insert? ==> resp.collection == CollectionName(ProfessionalKind) && resp.status.None?
    ensures resp.Unprocessable? ==> resp.violations != []
  {
    CollectionNameSpellings();
    Respond(ValidateProfessional(p), "professional", pro => ProfessionalRecord(pro), None)
  }

}
