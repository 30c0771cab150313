/**
 * The storefront's entities and the rules a request body must meet before it
 * is stored. Each entity is a datatype; a payload is what a client sent, with
 * every field possibly absent; validating a payload either yields the entity,
 * defaults filled in, or the list of violations (field path and broken rule)
 * that the service answers with HTTP 422.
 */
module Schemas {
  import opened Wrappers

  // ---------- Literal enumerations ----------

  datatype Finish = Opaco | Seta | Lucido | Satinato | OpacoProf
  datatype Usage = Interno | Esterno | Entrambi
  datatype OrderStatus = Pending | Paid | Shipped
  datatype Tier = Standard | Pro | Elite

  const Finishes: seq<Finish> := [Opaco, Seta, Lucido, Satinato, OpacoProf]
  const Usages: seq<Usage> := [Interno, Esterno, Entrambi]
  const Statuses: seq<OrderStatus> := [Pending, Paid, Shipped]
  const Tiers: seq<Tier> := [Standard, Pro, Elite]

  /** The literal spellings the schema allows, in declaration order. */
  const FinishNames: seq<string> := ["opaco", "seta", "lucido", "satinato", "opaco-prof"]
  const UsageNames: seq<string> := ["interno", "esterno", "entrambi"]
  const StatusNames: seq<string> := ["pending", "paid", "shipped"]
  const TierNames: seq<string> := ["standard", "pro", "elite"]

  function FinishName(f: Finish): string {
    match f
    case Opaco => "opaco"
    case Seta => "seta"
    case Lucido => "lucido"
    case Satinato => "satinato"
    case OpacoProf => "opaco-prof"
  }

  function UsageName(u: Usage): string {
    match u
    case Interno => "interno"
    case Esterno => "esterno"
    case Entrambi => "entrambi"
  }

  function StatusName(s: OrderStatus): string {
    match s
    case Pending => "pending"
    case Paid => "paid"
    case Shipped => "shipped"
  }

  function TierName(t: Tier): string {
    match t
    case Standard => "standard"
    case Pro => "pro"
    case Elite => "elite"
  }

  /** The spellings of `values`, in order. */
  function Names<T>(values: seq<T>, name: T -> string): (names: seq<string>)
    ensures |names| == |values| && forall i :: 0 <= i < |values| ==> names[i] == name(values[i])
  {
    seq(|values|, i requires 0 <= i < |values| => name(values[i]))
  }

  /** A `Literal[...]` check: the first of `values` spelled `s`, if there is one. */
  function ParseLiteral<T>(s: string, values: seq<T>, name: T -> string): (r: Option<T>)
    ensures r.Some? <==> s in Names(values, name)
    ensures r.Some? ==> r.value in values && name(r.value) == s
    decreases |values|
  {
    if values == [] then None
    else if name(values[0]) == s then Some(values[0])
    else
      var rest := ParseLiteral(s, values[1..], name);
      assert Names(values, name) == [name(values[0])] + Names(values[1..], name);
      rest
  }

  lemma {:induction false} LiteralSpellings()
    ensures Names(Finishes, FinishName) == FinishNames
    ensures Names(Usages, UsageName) == UsageNames
    ensures Names(Statuses, StatusName) == StatusNames
    ensures Names(Tiers, TierName) == TierNames
  {
  }

  /** Every finish is accepted under its own spelling and yields itself. */
  lemma {:induction false} FinishRoundTrip(f: Finish)
    ensures ParseLiteral(FinishName(f), Finishes, FinishName) == Some(f)
  {
    LiteralSpellings();
    var r := ParseLiteral(FinishName(f), Finishes, FinishName);
    assert FinishName(f) in FinishNames;
    assert FinishName(r.value) == FinishName(f);
  }

  lemma {:induction false} UsageRoundTrip(u: Usage)
    ensures ParseLiteral(UsageName(u), Usages, UsageName) == Some(u)
  {
    LiteralSpellings();
    var r := ParseLiteral(UsageName(u), Usages, UsageName);
    assert UsageName(u) in UsageNames;
    assert UsageName(r.value) == UsageName(u);
  }

  lemma {:induction false} StatusRoundTrip(s: OrderStatus)
    ensures ParseLiteral(StatusName(s), Statuses, StatusName) == Some(s)
  {
    LiteralSpellings();
    var r := ParseLiteral(StatusName(s), Statuses, StatusName);
    assert StatusName(s) in StatusNames;
    assert StatusName(r.value) == StatusName(s);
  }

  lemma {:induction false} TierRoundTrip(t: Tier)
    ensures ParseLiteral(TierName(t), Tiers, TierName) == Some(t)
  {
    LiteralSpellings();
    var r := ParseLiteral(TierName(t), Tiers, TierName);
    assert TierName(t) in TierNames;
    assert TierName(r.value) == TierName(t);
  }

  // ---------- Validation errors ----------

  /** One step of a field path: a field name, or a position in a list. */
  datatype PathElem = Field(name: string) | Index(i: nat)

  /** The rule a value broke. */
  datatype ErrorKind =
    | Missing                          // a required field is absent
    | GreaterThanEqual(ge: real)       // below the lower bound
    | LessThanEqual(le: real)          // above the upper bound
    | LiteralError(expected: seq<string>)  // not one of the allowed spellings

  datatype Violation = Violation(loc: seq<PathElem>, kind: ErrorKind)

  /** A required field: one violation when absent. */
  function Required<T>(field: string, v: Option<T>): (errs: seq<Violation>)
    ensures errs == [] <==> v.Some?
    ensures forall w :: w in errs ==> w.loc == [Field(field)]
  {
    if v.None? then [Violation([Field(field)], Missing)] else []
  }

  /** A numeric bound `ge <= x` (and `x <= le` when given): at most one violation. */
  function Bounded(field: string, x: real, ge: real, le: Option<real>): (errs: seq<Violation>)
    ensures errs == [] <==> ge <= x && (le.Some? ==> x <= le.value)
    ensures |errs| <= 1
    ensures forall w :: w in errs ==> w.loc == [Field(field)]
  {
    if x < ge then [Violation([Field(field)], GreaterThanEqual(ge))]
    else if le.Some? && x > le.value then [Violation([Field(field)], LessThanEqual(le.value))]
    else []
  }

  /** A `Literal[...]` field: one violation naming the allowed spellings when `s` is none of them. */
  function Literal<T>(field: string, s: string, values: seq<T>, name: T -> string): (errs: seq<Violation>)
    ensures errs == [] <==> s in Names(values, name)
    ensures forall w :: w in errs ==> w.loc == [Field(field)]
  {
    if ParseLiteral(s, values, name).Some? then []
    else [Violation([Field(field)], LiteralError(Names(values, name)))]
  }

  /** The single-field violation `kind` at top-level field `field` is among `errs`. */
  predicate Reported(errs: seq<Violation>, field: string, kind: ErrorKind) {
    Violation([Field(field)], kind) in errs
  }

  /** Violation `w` of the element at position `i` of list `field`, as the enclosing entity reports it. */
  function AtElement(field: string, i: nat, w: Violation): Violation {
    Violation([Field(field), Index(i)] + w.loc, w.kind)
  }

  /** Every violation of every rejected element of `ps` is in `errs`, at the element's position. */
  predicate ElementsReported<P, T>(errs: seq<Violation>, ps: seq<P>, validate: P -> Result<T, seq<Violation>>,
                                   field: string, offset: nat) {
    forall i, w :: 0 <= i < |ps| && validate(ps[i]).Failure? && w in validate(ps[i]).error ==>
      AtElement(field, offset + i, w) in errs
  }

  /** Every violation of `errs` inside list `field` is a violation of the rejected element it points at. */
  predicate OnlyElementsReported<P, T>(errs: seq<Violation>, ps: seq<P>, validate: P -> Result<T, seq<Violation>>,
                                       field: string, offset: nat) {
    forall v :: v in errs && |v.loc| >= 2 && v.loc[0] == Field(field) ==>
      && v.loc[1].Index? && offset <= v.loc[1].i < offset + |ps|
      && validate(ps[v.loc[1].i - offset]).Failure?
      && Violation(v.loc[2..], v.kind) in validate(ps[v.loc[1].i - offset]).error
  }

  /** The violations of an element of list `field` at position `i`, with the path prefixed. */
  function Nest(field: string, i: nat, errs: seq<Violation>): (nested: seq<Violation>)
    ensures |nested| == |errs|
    ensures forall j :: 0 <= j < |errs| ==> nested[j] == AtElement(field, i, errs[j])
    ensures forall w :: w in errs ==> AtElement(field, i, w) in nested
    ensures forall v :: v in nested ==>
      |v.loc| >= 2 && v.loc[0] == Field(field) && v.loc[1] == Index(i) && Violation(v.loc[2..], v.kind) in errs
  {
    var nested := seq(|errs|, j requires 0 <= j < |errs| => AtElement(field, i, errs[j]));
    NestMembers(field, i, errs, nested);
    nested
  }

  lemma NestMembers(field: string, i: nat, errs: seq<Violation>, nested: seq<Violation>)
    requires |nested| == |errs| && forall j :: 0 <= j < |errs| ==> nested[j] == AtElement(field, i, errs[j])
    ensures forall w :: w in errs ==> AtElement(field, i, w) in nested
    ensures forall v :: v in nested ==>
      |v.loc| >= 2 && v.loc[0] == Field(field) && v.loc[1] == Index(i) && Violation(v.loc[2..], v.kind) in errs
  {
    forall w | w in errs
      ensures AtElement(field, i, w) in nested
    {
      var j :| 0 <= j < |errs| && errs[j] == w;
      assert nested[j] == AtElement(field, i, w);
    }
    forall v | v in nested
      ensures |v.loc| >= 2 && v.loc[0] == Field(field) && v.loc[1] == Index(i) && Violation(v.loc[2..], v.kind) in errs
    {
      var j :| 0 <= j < |nested| && nested[j] == v;
      assert v.loc == [Field(field), Index(i)] + errs[j].loc;
      assert v.loc[2..] == errs[j].loc;
    }
  }

  /**
   * Validates every element of the list `field`, starting at position
   * `offset`: the list of results when every element is accepted, otherwise
   * the violations of all rejected elements, in order, with their paths
   * prefixed by the field and the position.
   */
  function ValidateEach<P, T>(ps: seq<P>, validate: P -> Result<T, seq<Violation>>, field: string, offset: nat)
    : (r: Result<seq<T>, seq<Violation>>)
    requires forall i :: 0 <= i < |ps| && validate(ps[i]).Failure? ==> validate(ps[i]).error != []
    ensures r.Success? <==> forall i :: 0 <= i < |ps| ==> validate(ps[i]).Success?
    ensures r.Success? ==> |r.value| == |ps| && forall i :: 0 <= i < |ps| ==> r.value[i] == validate(ps[i]).value
    ensures r.Failure? ==> r.error != [] && forall v :: v in r.error ==> |v.loc| >= 2 && v.loc[0] == Field(field)
    ensures r.Failure? ==> ElementsReported(r.error, ps, validate, field, offset)
    ensures r.Failure? ==> OnlyElementsReported(r.error, ps, validate, field, offset)
    decreases |ps|
  {
    if ps == [] then Success([])
    else
      var head := validate(ps[0]);
      var rest := ValidateEach(ps[1..], validate, field, offset + 1);
      var restErrs := if rest.Failure? then rest.error else [];
      var errs := ConsErrors(ps, validate, field, offset, restErrs);
      assert forall i :: 1 <= i < |ps| ==> ps[i] == ps[1..][i - 1];
      if errs == [] then
        Success([head.value] + rest.value)
      else
        assert head.Success? && rest.Failure? ==> exists i :: 1 <= i < |ps| && validate(ps[i]).Failure? by {
          if head.Success? && rest.Failure? {
            var i :| 0 <= i < |ps[1..]| && validate(ps[1..][i]).Failure?;
            assert validate(ps[i + 1]).Failure?;
          }
        }
        ElementsReportedCons(ps, validate, field, offset, restErrs);
        OnlyElementsReportedCons(ps, validate, field, offset, restErrs);
        Failure(errs)
  }

  /** The violations of a list's first element, re-rooted, followed by those of the rest. */
  function ConsErrors<P, T>(ps: seq<P>, validate: P -> Result<T, seq<Violation>>, field: string, offset: nat,
                            restErrs: seq<Violation>): seq<Violation>
    requires |ps| >= 1
  {
    (if validate(ps[0]).Failure? then Nest(field, offset, validate(ps[0]).error) else []) + restErrs
  }

  lemma ElementsReportedCons<P, T>(ps: seq<P>, validate: P -> Result<T, seq<Violation>>, field: string, offset: nat,
                                   restErrs: seq<Violation>)
    requires |ps| >= 1
    requires ElementsReported(restErrs, ps[1..], validate, field, offset + 1)
    ensures ElementsReported(ConsErrors(ps, validate, field, offset, restErrs), ps, validate, field, offset)
  {
    var errs := ConsErrors(ps, validate, field, offset, restErrs);
    forall i, w | 0 <= i < |ps| && validate(ps[i]).Failure? && w in validate(ps[i]).error
      ensures AtElement(field, offset + i, w) in errs
    {
      if i > 0 {
        assert ps[i] == ps[1..][i - 1];
        assert AtElement(field, offset + 1 + (i - 1), w) in restErrs;
      }
    }
  }

  lemma OnlyElementsReportedCons<P, T>(ps: seq<P>, validate: P -> Result<T, seq<Violation>>, field: string, offset: nat,
                                       restErrs: seq<Violation>)
    requires |ps| >= 1
    requires OnlyElementsReported(restErrs, ps[1..], validate, field, offset + 1)
    ensures OnlyElementsReported(ConsErrors(ps, validate, field, offset, restErrs), ps, validate, field, offset)
  {
    var errs := ConsErrors(ps, validate, field, offset, restErrs);
    forall v | v in errs && |v.loc| >= 2 && v.loc[0] == Field(field)
      ensures && v.loc[1].Index? && offset <= v.loc[1].i < offset + |ps|
              && validate(ps[v.loc[1].i - offset]).Failure?
              && Violation(v.loc[2..], v.kind) in validate(ps[v.loc[1].i - offset]).error
    {
      if v !in restErrs {
        assert validate(ps[0]).Failure? && v in Nest(field, offset, validate(ps[0]).error);
      } else {
        assert ps[1..][v.loc[1].i - (offset + 1)] == ps[v.loc[1].i - offset];
      }
    }
  }

  /**
   * A list's violations placed among those of the entity's own fields: a
   * top-level field is reported as before, and the list's element violations
   * are all there, and are the only ones under the list's field.
   */
  lemma NestedAmongFields<P, T>(before: seq<Violation>, nested: seq<Violation>, after: seq<Violation>,
                                rules: seq<Violation>, ps: seq<P>, validate: P -> Result<T, seq<Violation>>,
                                field: string)
    requires forall v :: v in before + after ==> v in rules
    requires forall v :: v in rules ==> |v.loc| == 1
    requires forall v :: v in nested ==> |v.loc| >= 2 && v.loc[0] == Field(field)
    requires ElementsReported(nested, ps, validate, field, 0)
    requires OnlyElementsReported(nested, ps, validate, field, 0)
    ensures forall f, k :: Reported(before + nested + after, f, k) <==> Reported(before + after, f, k)
    ensures forall v :: v in before + nested + after ==> v in rules || (|v.loc| >= 2 && v.loc[0] == Field(field))
    ensures ElementsReported(before + nested + after, ps, validate, field, 0)
    ensures OnlyElementsReported(before + nested + after, ps, validate, field, 0)
  {
  }

  // ---------- Catalog entities ----------

  datatype Category = Category(name: string, slug: string, description: Option<string>, heroImage: Option<string>)

  datatype CategoryPayload = CategoryPayload(
    name: Option<string>, slug: Option<string>, description: Option<string>, heroImage: Option<string>)

  predicate AcceptsCategory(p: CategoryPayload) {
    p.name.Some? && p.slug.Some?
  }

  /** Every violation a category can be refused with. */
  const CategoryRules: seq<Violation> := [Violation([Field("name")], Missing), Violation([Field("slug")], Missing)]

  /** Name and slug are required; description and hero image are optional. */
  function ValidateCategory(p: CategoryPayload): (r: Result<Category, seq<Violation>>)
    ensures r.Success? <==> AcceptsCategory(p)
    ensures r.Success? ==> r.value == Category(p.name.value, p.slug.value, p.description, p.heroImage)
    ensures r.Failure? ==> r.error != []
    ensures r.Failure? ==> (Reported(r.error, "name", Missing) <==> p.name.None?)
    ensures r.Failure? ==> (Reported(r.error, "slug", Missing) <==> p.slug.None?)
    ensures r.Failure? ==> forall v :: v in r.error ==> v in CategoryRules
  {
    var errs := Required("name", p.name) + Required("slug", p.slug);
    if errs == [] then Success(Category(p.name.value, p.slug.value, p.description, p.heroImage))
    else Failure(errs)
  }

  datatype ProductVariant = ProductVariant(colorName: string, hex: string, finish: Finish, stock: int) {
    predicate Valid() {
      stock >= 0
    }
  }

  datatype ProductVariantPayload = ProductVariantPayload(
    colorName: Option<string>, hex: Option<string>, finish: Option<string>, stock: Option<int>)

  const DefaultFinish: Finish := Opaco
  const DefaultStock: int := 0

  predicate AcceptsProductVariant(p: ProductVariantPayload) {
    && p.colorName.Some? && p.hex.Some?
    && (p.finish.Some? ==> p.finish.value in FinishNames)
    && (p.stock.Some? ==> p.stock.value >= 0)
  }

  /** Every violation a product variant can be refused with. */
  const ProductVariantRules: seq<Violation> := [
    Violation([Field("color_name")], Missing), Violation([Field("hex")], Missing),
    Violation([Field("finish")], LiteralError(FinishNames)), Violation([Field("stock")], GreaterThanEqual(0.0))]

  function ProductVariantViolations(p: ProductVariantPayload): seq<Violation> {
    Required("color_name", p.colorName)
    + Required("hex", p.hex)
    + (if p.finish.Some? then Literal("finish", p.finish.value, Finishes, FinishName) else [])
    + (if p.stock.Some? then Bounded("stock", p.stock.value as real, 0.0, None) else [])
  }

  /**
   * Color name and hex are required; the finish defaults to "opaco" and the
   * stock to 0, and a stock given must not be negative.
   */
  function ValidateProductVariant(p: ProductVariantPayload): (r: Result<ProductVariant, seq<Violation>>)
    ensures r.Success? <==> AcceptsProductVariant(p)
    ensures r.Success? ==> && r.value.Valid()
                           && r.value.colorName == p.colorName.value && r.value.hex == p.hex.value
                           && (p.finish.None? ==> r.value.finish == Opaco)
                           && (p.finish.Some? ==> FinishName(r.value.finish) == p.finish.value)
                           && r.value.stock == p.stock.GetOr(0)
    ensures r.Failure? ==> r.error != []
  {
    LiteralSpellings();
    var errs := ProductVariantViolations(p);
    if errs == [] then
      var finish := if p.finish.Some? then ParseLiteral(p.finish.value, Finishes, FinishName).value else DefaultFinish;
      Success(ProductVariant(p.colorName.value, p.hex.value, finish, p.stock.GetOr(DefaultStock)))
    else Failure(errs)
  }

  /** A refused variant: each field is reported exactly when it breaks its rule, and nothing else is. */
  lemma ProductVariantRefusal(p: ProductVariantPayload, errs: seq<Violation>)
    requires ValidateProductVariant(p) == Failure(errs)
    ensures Reported(errs, "color_name", Missing) <==> p.colorName.None?
    ensures Reported(errs, "hex", Missing) <==> p.hex.None?
    ensures Reported(errs, "finish", LiteralError(FinishNames)) <==> p.finish.Some? && p.finish.value !in FinishNames
    ensures Reported(errs, "stock", GreaterThanEqual(0.0)) <==> p.stock.Some? && p.stock.value < 0
    ensures forall v :: v in errs ==> v in ProductVariantRules
  {
    assert errs == ProductVariantViolations(p);
    ProductVariantNamesReported(p);
    ProductVariantFinishStockReported(p);
  }

  lemma ProductVariantNamesReported(p: ProductVariantPayload)
    ensures Reported(ProductVariantViolations(p), "color_name", Missing) <==> p.colorName.None?
    ensures Reported(ProductVariantViolations(p), "hex", Missing) <==> p.hex.None?
  {
    var tail := (if p.finish.Some? then Literal("finish", p.finish.value, Finishes, FinishName) else [])
      + (if p.stock.Some? then Bounded("stock", p.stock.value as real, 0.0, None) else []);
    assert ProductVariantViolations(p) == Required("color_name", p.colorName) + Required("hex", p.hex) + tail;
    assert forall v :: v in tail ==> v.loc == [Field("finish")] || v.loc == [Field("stock")];
  }

  lemma ProductVariantFinishStockReported(p: ProductVariantPayload)
    ensures Reported(ProductVariantViolations(p), "finish", LiteralError(FinishNames)) <==>
              p.finish.Some? && p.finish.value !in FinishNames
    ensures Reported(ProductVariantViolations(p), "stock", GreaterThanEqual(0.0)) <==> p.stock.Some? && p.stock.value < 0
    ensures forall v :: v in ProductVariantViolations(p) ==> v in ProductVariantRules
  {
    LiteralSpellings();
  }

  datatype Product = Product(
    title: string, description: string, category: string, usage: Usage, basePrice: real,
    variants: seq<ProductVariant>, techSheetUrl: Option<string>, images: seq<string>)
  {
    predicate Valid() {
      basePrice >= 0.0 && forall i :: 0 <= i < |variants| ==> variants[i].Valid()
    }
  }

  datatype ProductPayload = ProductPayload(
    title: Option<string>, description: Option<string>, category: Option<string>, usage: Option<string>,
    basePrice: Option<real>, variants: Option<seq<ProductVariantPayload>>, techSheetUrl: Option<string>,
    images: Option<seq<string>>)

  const DefaultUsage: Usage := Interno

  predicate AcceptsProduct(p: ProductPayload) {
    && p.title.Some? && p.description.Some? && p.category.Some?
    && (p.usage.Some? ==> p.usage.value in UsageNames)
    && p.basePrice.Some? && p.basePrice.value >= 0.0
    && (p.variants.Some? ==> forall i :: 0 <= i < |p.variants.value| ==> AcceptsProductVariant(p.variants.value[i]))
  }

  function ValidateVariants(p: ProductPayload): Result<seq<ProductVariant>, seq<Violation>> {
    ValidateEach(p.variants.GetOr([]), ValidateProductVariant, "variants", 0)
  }

  /** Every violation of a product's own fields; a rejected variant's are reported under `variants`. */
  const ProductRules: seq<Violation> := [
    Violation([Field("title")], Missing), Violation([Field("description")], Missing),
    Violation([Field("category")], Missing), Violation([Field("usage")], LiteralError(UsageNames)),
    Violation([Field("base_price")], Missing), Violation([Field("base_price")], GreaterThanEqual(0.0))]

  /** The violations of a product's own fields, in field order. */
  function ProductFieldViolations(p: ProductPayload): seq<Violation> {
    Required("title", p.title)
    + Required("description", p.description)
    + Required("category", p.category)
    + (if p.usage.Some? then Literal("usage", p.usage.value, Usages, UsageName) else [])
    + (if p.basePrice.None? then Required("base_price", p.basePrice) else Bounded("base_price", p.basePrice.value, 0.0, None))
  }

  /** The violations of the rejected variants, under `variants`. */
  function VariantViolations(p: ProductPayload): seq<Violation> {
    var vs := ValidateVariants(p);
    if vs.Failure? then vs.error else []
  }

  function ProductViolations(p: ProductPayload): seq<Violation> {
    ProductFieldViolations(p) + VariantViolations(p)
  }

  /** Each of a product's own fields is reported exactly when it breaks its rule, and with nothing else. */
  lemma ProductFieldsReported(p: ProductPayload)
    ensures Reported(ProductFieldViolations(p), "title", Missing) <==> p.title.None?
    ensures Reported(ProductFieldViolations(p), "description", Missing) <==> p.description.None?
    ensures Reported(ProductFieldViolations(p), "category", Missing) <==> p.category.None?
    ensures Reported(ProductFieldViolations(p), "usage", LiteralError(UsageNames)) <==>
              p.usage.Some? && p.usage.value !in UsageNames
    ensures Reported(ProductFieldViolations(p), "base_price", Missing) <==> p.basePrice.None?
    ensures Reported(ProductFieldViolations(p), "base_price", GreaterThanEqual(0.0)) <==>
              p.basePrice.Some? && p.basePrice.value < 0.0
    ensures forall v :: v in ProductFieldViolations(p) ==> v in ProductRules
  {
    ProductTextFieldsReported(p);
    ProductUsagePriceReported(p);
  }

  lemma ProductTextFieldsReported(p: ProductPayload)
    ensures Reported(ProductFieldViolations(p), "title", Missing) <==> p.title.None?
    ensures Reported(ProductFieldViolations(p), "description", Missing) <==> p.description.None?
    ensures Reported(ProductFieldViolations(p), "category", Missing) <==> p.category.None?
  {
    var tail := (if p.usage.Some? then Literal("usage", p.usage.value, Usages, UsageName) else [])
      + (if p.basePrice.None? then Required("base_price", p.basePrice) else Bounded("base_price", p.basePrice.value, 0.0, None));
    assert ProductFieldViolations(p) ==
      Required("title", p.title) + Required("description", p.description) + Required("category", p.category) + tail;
    assert forall v :: v in tail ==> v.loc == [Field("usage")] || v.loc == [Field("base_price")];
  }

  lemma ProductUsagePriceReported(p: ProductPayload)
    ensures Reported(ProductFieldViolations(p), "usage", LiteralError(UsageNames)) <==>
              p.usage.Some? && p.usage.value !in UsageNames
    ensures Reported(ProductFieldViolations(p), "base_price", Missing) <==> p.basePrice.None?
    ensures Reported(ProductFieldViolations(p), "base_price", GreaterThanEqual(0.0)) <==>
              p.basePrice.Some? && p.basePrice.value < 0.0
    ensures forall v :: v in ProductFieldViolations(p) ==> v in ProductRules
  {
    LiteralSpellings();
  }

  /** Each field is reported exactly when it breaks its rule, and each rejected variant under its position. */
  lemma ProductViolationsReported(p: ProductPayload)
    ensures Reported(ProductViolations(p), "title", Missing) <==> p.title.None?
    ensures Reported(ProductViolations(p), "description", Missing) <==> p.description.None?
    ensures Reported(ProductViolations(p), "category", Missing) <==> p.category.None?
    ensures Reported(ProductViolations(p), "usage", LiteralError(UsageNames)) <==>
              p.usage.Some? && p.usage.value !in UsageNames
    ensures Reported(ProductViolations(p), "base_price", Missing) <==> p.basePrice.None?
    ensures Reported(ProductViolations(p), "base_price", GreaterThanEqual(0.0)) <==>
              p.basePrice.Some? && p.basePrice.value < 0.0
  {
    ProductViolationsSplit(p);
    ProductFieldsReported(p);
  }

  /** The product's violations: its own fields' and its variants', placed as `NestedAmongFields` describes. */
  lemma ProductViolationsSplit(p: ProductPayload)
    ensures forall f, k :: Reported(ProductViolations(p), f, k) <==> Reported(ProductFieldViolations(p), f, k)
    ensures ElementsReported(ProductViolations(p), p.variants.GetOr([]), ValidateProductVariant, "variants", 0)
    ensures OnlyElementsReported(ProductViolations(p), p.variants.GetOr([]), ValidateProductVariant, "variants", 0)
    ensures forall v :: v in ProductViolations(p) ==> v in ProductRules || (|v.loc| >= 2 && v.loc[0] == Field("variants"))
  {
    ProductFieldsReported(p);
    VariantsReported(p);
    assert forall v :: v in ProductRules ==> |v.loc| == 1;
    var fields := ProductFieldViolations(p);
    assert fields + [] == fields;
    assert fields + VariantViolations(p) + [] == ProductViolations(p);
    NestedAmongFields(fields, VariantViolations(p), [], ProductRules,
                      p.variants.GetOr([]), ValidateProductVariant, "variants");
  }

  /** A rejected variant's violations are reported under `variants` at its position, and only those. */
  lemma VariantsReported(p: ProductPayload)
    ensures forall v :: v in VariantViolations(p) ==> |v.loc| >= 2 && v.loc[0] == Field("variants")
    ensures ElementsReported(VariantViolations(p), p.variants.GetOr([]), ValidateProductVariant, "variants", 0)
    ensures OnlyElementsReported(VariantViolations(p), p.variants.GetOr([]), ValidateProductVariant, "variants", 0)
  {
  }

  /**
   * Title, description, category slug and base price are required, the price
   * must not be negative, every variant must be valid; the usage defaults to
   * "interno" and the variant and image lists to empty.
   */
  function ValidateProduct(p: ProductPayload): (r: Result<Product, seq<Violation>>)
    ensures r.Success? <==> AcceptsProduct(p)
    ensures r.Success? ==> && r.value.Valid()
                           && r.value.title == p.title.value && r.value.description == p.description.value
                           && r.value.category == p.category.value && r.value.basePrice == p.basePrice.value
                           && (p.usage.None? ==> r.value.usage == Interno)
                           && (p.usage.Some? ==> UsageName(r.value.usage) == p.usage.value)
                           && |r.value.variants| == |p.variants.GetOr([])|
                           && (forall i :: 0 <= i < |r.value.variants| ==>
                                 Success(r.value.variants[i]) == ValidateProductVariant(p.variants.value[i]))
                           && r.value.techSheetUrl == p.techSheetUrl
                           && r.value.images == p.images.GetOr([])
    ensures r.Failure? ==> r.error != []
  {
    LiteralSpellings();
    var errs := ProductViolations(p);
    var vs := ValidateVariants(p);
    if errs == [] then
      var usage := if p.usage.Some? then ParseLiteral(p.usage.value, Usages, UsageName).value else DefaultUsage;
      Success(Product(p.title.value, p.description.value, p.category.value, usage, p.basePrice.value,
                      vs.value, p.techSheetUrl, p.images.GetOr([])))
    else Failure(errs)
  }

  /**
   * A refused product: each own field is reported exactly when it breaks its
   * rule, every violation of a rejected variant is reported under `variants`
   * at its position, and nothing else is.
   */
  lemma ProductRefusal(p: ProductPayload, errs: seq<Violation>)
    requires ValidateProduct(p) == Failure(errs)
    ensures Reported(errs, "title", Missing) <==> p.title.None?
    ensures Reported(errs, "description", Missing) <==> p.description.None?
    ensures Reported(errs, "category", Missing) <==> p.category.None?
    ensures Reported(errs, "usage", LiteralError(UsageNames)) <==> p.usage.Some? && p.usage.value !in UsageNames
    ensures Reported(errs, "base_price", Missing) <==> p.basePrice.None?
    ensures Reported(errs, "base_price", GreaterThanEqual(0.0)) <==> p.basePrice.Some? && p.basePrice.value < 0.0
    ensures ElementsReported(errs, p.variants.GetOr([]), ValidateProductVariant, "variants", 0)
    ensures OnlyElementsReported(errs, p.variants.GetOr([]), ValidateProductVariant, "variants", 0)
    ensures forall v :: v in errs ==> v in ProductRules || (|v.loc| >= 2 && v.loc[0] == Field("variants"))
  {
    assert errs == ProductViolations(p);
    ProductViolationsReported(p);
    ProductViolationsSplit(p);
  }

  datatype Review = Review(productId: string, rating: int, author: string, comment: Option<string>) {
    predicate Valid() {
      1 <= rating <= 5
    }
  }

  datatype ReviewPayload = ReviewPayload(
    productId: Option<string>, rating: Option<int>, author: Option<string>, comment: Option<string>)

  predicate AcceptsReview(p: ReviewPayload) {
    p.productId.Some? && p.rating.Some? && 1 <= p.rating.value <= 5 && p.author.Some?
  }

  /** Every violation a review can be refused with. */
  const ReviewRules: seq<Violation> := [
    Violation([Field("product_id")], Missing), Violation([Field("rating")], Missing),
    Violation([Field("rating")], GreaterThanEqual(1.0)), Violation([Field("rating")], LessThanEqual(5.0)),
    Violation([Field("author")], Missing)]

  /** Product id, rating and author are required, the rating lies in 1..5; the comment is optional. */
  function ValidateReview(p: ReviewPayload): (r: Result<Review, seq<Violation>>)
    ensures r.Success? <==> AcceptsReview(p)
    ensures r.Success? ==> r.value.Valid() && r.value == Review(p.productId.value, p.rating.value, p.author.value, p.comment)
    ensures r.Failure? ==> r.error != []
    ensures r.Failure? ==> (Reported(r.error, "product_id", Missing) <==> p.productId.None?)
    ensures r.Failure? ==> (Reported(r.error, "rating", Missing) <==> p.rating.None?)
    ensures r.Failure? ==> (Reported(r.error, "rating", GreaterThanEqual(1.0)) <==> p.rating.Some? && p.rating.value < 1)
    ensures r.Failure? ==> (Reported(r.error, "rating", LessThanEqual(5.0)) <==> p.rating.Some? && p.rating.value > 5)
    ensures r.Failure? ==> (Reported(r.error, "author", Missing) <==> p.author.None?)
    ensures r.Failure? ==> forall v :: v in r.error ==> v in ReviewRules
  {
    var errs := Required("product_id", p.productId)
      + (if p.rating.None? then Required("rating", p.rating) else Bounded("rating", p.rating.value as real, 1.0, Some(5.0)))
      + Required("author", p.author);
    if errs == [] then Success(Review(p.productId.value, p.rating.value, p.author.value, p.comment))
    else Failure(errs)
  }

  // ---------- Commerce ----------

  datatype CartItem = CartItem(productId: string, variantHex: Option<string>, quantity: int, unitPrice: real) {
    predicate Valid() {
      quantity >= 1 && unitPrice >= 0.0
    }
  }

  datatype CartItemPayload = CartItemPayload(
    productId: Option<string>, variantHex: Option<string>, quantity: Option<int>, unitPrice: Option<real>)

  const DefaultQuantity: int := 1

  predicate AcceptsCartItem(p: CartItemPayload) {
    && p.productId.Some?
    && (p.quantity.Some? ==> p.quantity.value >= 1)
    && p.unitPrice.Some? && p.unitPrice.value >= 0.0
  }

  /** Every violation a cart item can be refused with. */
  const CartItemRules: seq<Violation> := [
    Violation([Field("product_id")], Missing), Violation([Field("quantity")], GreaterThanEqual(1.0)),
    Violation([Field("unit_price")], Missing), Violation([Field("unit_price")], GreaterThanEqual(0.0))]

  /** Product id and unit price are required, the price not negative; the quantity defaults to 1 and is at least 1. */
  function ValidateCartItem(p: CartItemPayload): (r: Result<CartItem, seq<Violation>>)
    ensures r.Success? <==> AcceptsCartItem(p)
    ensures r.Success? ==> && r.value.Valid()
                           && r.value == CartItem(p.productId.value, p.variantHex, p.quantity.GetOr(1), p.unitPrice.value)
    ensures r.Failure? ==> r.error != []
    ensures r.Failure? ==> (Reported(r.error, "product_id", Missing) <==> p.productId.None?)
    ensures r.Failure? ==> (Reported(r.error, "quantity", GreaterThanEqual(1.0)) <==> p.quantity.Some? && p.quantity.value < 1)
    ensures r.Failure? ==> (Reported(r.error, "unit_price", Missing) <==> p.unitPrice.None?)
    ensures r.Failure? ==> (Reported(r.error, "unit_price", GreaterThanEqual(0.0)) <==>
                              p.unitPrice.Some? && p.unitPrice.value < 0.0)
    ensures r.Failure? ==> forall v :: v in r.error ==> v in CartItemRules
  {
    var errs := Required("product_id", p.productId)
      + (if p.quantity.Some? then Bounded("quantity", p.quantity.value as real, 1.0, None) else [])
      + (if p.unitPrice.None? then Required("unit_price", p.unitPrice) else Bounded("unit_price", p.unitPrice.value, 0.0, None));
    if errs == [] then Success(CartItem(p.productId.value, p.variantHex, p.quantity.GetOr(DefaultQuantity), p.unitPrice.value))
    else Failure(errs)
  }

  datatype Order = Order(userEmail: string, items: seq<CartItem>, total: real, status: OrderStatus) {
    /** The schema checks the total's sign only, never against the items. */
    predicate Valid() {
      total >= 0.0 && forall i :: 0 <= i < |items| ==> items[i].Valid()
    }
  }

  datatype OrderPayload = OrderPayload(
    userEmail: Option<string>, items: Option<seq<CartItemPayload>>, total: Option<real>, status: Option<string>)

  const DefaultStatus: OrderStatus := Pending

  predicate AcceptsOrder(p: OrderPayload) {
    && p.userEmail.Some?
    && p.items.Some? && (forall i :: 0 <= i < |p.items.value| ==> AcceptsCartItem(p.items.value[i]))
    && p.total.Some? && p.total.value >= 0.0
    && (p.status.Some? ==> p.status.value in StatusNames)
  }

  function ValidateItems(p: OrderPayload): Result<seq<CartItem>, seq<Violation>> {
    ValidateEach(p.items.GetOr([]), ValidateCartItem, "items", 0)
  }

  /** Every violation of an order's own fields; a rejected item's are reported under `items`. */
  const OrderRules: seq<Violation> := [
    Violation([Field("user_email")], Missing), Violation([Field("items")], Missing),
    Violation([Field("total")], Missing), Violation([Field("total")], GreaterThanEqual(0.0)),
    Violation([Field("status")], LiteralError(StatusNames))]

  /** The violations of the fields before `items`, in field order. */
  function OrderLeadingViolations(p: OrderPayload): seq<Violation> {
    Required("user_email", p.userEmail) + Required("items", p.items)
  }

  /** The violations of the rejected items, under `items`. */
  function ItemViolations(p: OrderPayload): seq<Violation> {
    var vs := ValidateItems(p);
    if p.items.Some? && vs.Failure? then vs.error else []
  }

  /** The violations of the fields after `items`, in field order. */
  function OrderTrailingViolations(p: OrderPayload): seq<Violation> {
    (if p.total.None? then Required("total", p.total) else Bounded("total", p.total.value, 0.0, None))
    + (if p.status.Some? then Literal("status", p.status.value, Statuses, StatusName) else [])
  }

  function OrderViolations(p: OrderPayload): seq<Violation> {
    OrderLeadingViolations(p) + ItemViolations(p) + OrderTrailingViolations(p)
  }

  /** The fields before `items`: each reported exactly when absent. */
  lemma OrderLeadingReported(p: OrderPayload)
    ensures Reported(OrderLeadingViolations(p), "user_email", Missing) <==> p.userEmail.None?
    ensures Reported(OrderLeadingViolations(p), "items", Missing) <==> p.items.None?
    ensures !Reported(OrderLeadingViolations(p), "total", Missing)
    ensures !Reported(OrderLeadingViolations(p), "total", GreaterThanEqual(0.0))
    ensures !Reported(OrderLeadingViolations(p), "status", LiteralError(StatusNames))
    ensures forall v :: v in OrderLeadingViolations(p) ==> v in OrderRules
  {
  }

  /** The fields after `items`: each reported exactly when it breaks its rule. */
  lemma OrderTrailingReported(p: OrderPayload)
    ensures Reported(OrderTrailingViolations(p), "total", Missing) <==> p.total.None?
    ensures Reported(OrderTrailingViolations(p), "total", GreaterThanEqual(0.0)) <==> p.total.Some? && p.total.value < 0.0
    ensures Reported(OrderTrailingViolations(p), "status", LiteralError(StatusNames)) <==>
              p.status.Some? && p.status.value !in StatusNames
    ensures !Reported(OrderTrailingViolations(p), "user_email", Missing)
    ensures !Reported(OrderTrailingViolations(p), "items", Missing)
    ensures forall v :: v in OrderTrailingViolations(p) ==> v in OrderRules
  {
    LiteralSpellings();
  }

  /** Each field is reported exactly when it breaks its rule, and each rejected item under its position. */
  lemma OrderViolationsReported(p: OrderPayload)
    ensures Reported(OrderViolations(p), "user_email", Missing) <==> p.userEmail.None?
    ensures Reported(OrderViolations(p), "items", Missing) <==> p.items.None?
    ensures Reported(OrderViolations(p), "total", Missing) <==> p.total.None?
    ensures Reported(OrderViolations(p), "total", GreaterThanEqual(0.0)) <==> p.total.Some? && p.total.value < 0.0
    ensures Reported(OrderViolations(p), "status", LiteralError(StatusNames)) <==>
              p.status.Some? && p.status.value !in StatusNames
  {
    OrderViolationsSplit(p);
    OrderLeadingReported(p);
    OrderTrailingReported(p);
  }

  /** The order's violations: its own fields' and its items', placed as `NestedAmongFields` describes. */
  lemma OrderViolationsSplit(p: OrderPayload)
    ensures forall f, k :: Reported(OrderViolations(p), f, k) <==>
                           Reported(OrderLeadingViolations(p) + OrderTrailingViolations(p), f, k)
    ensures ElementsReported(OrderViolations(p), p.items.GetOr([]), ValidateCartItem, "items", 0)
    ensures OnlyElementsReported(OrderViolations(p), p.items.GetOr([]), ValidateCartItem, "items", 0)
    ensures forall v :: v in OrderViolations(p) ==> v in OrderRules || (|v.loc| >= 2 && v.loc[0] == Field("items"))
  {
    assert forall v :: v in OrderRules ==> |v.loc| == 1;
    OrderLeadingReported(p);
    OrderTrailingReported(p);
    ItemsReported(p);
    NestedAmongFields(OrderLeadingViolations(p), ItemViolations(p), OrderTrailingViolations(p), OrderRules,
                      p.items.GetOr([]), ValidateCartItem, "items");
  }

  /** A rejected item's violations are reported under `items` at its position, and only those. */
  lemma ItemsReported(p: OrderPayload)
    ensures forall v :: v in ItemViolations(p) ==> |v.loc| >= 2 && v.loc[0] == Field("items")
    ensures ElementsReported(ItemViolations(p), p.items.GetOr([]), ValidateCartItem, "items", 0)
    ensures OnlyElementsReported(ItemViolations(p), p.items.GetOr([]), ValidateCartItem, "items", 0)
  {
  }

  /**
   * User email, items and total are required, the total not negative, every
   * item valid; the status defaults to "pending".
   */
  function ValidateOrder(p: OrderPayload): (r: Result<Order, seq<Violation>>)
    ensures r.Success? <==> AcceptsOrder(p)
    ensures r.Success? ==> && r.value.Valid()
                           && r.value.userEmail == p.userEmail.value && r.value.total == p.total.value
                           && |r.value.items| == |p.items.value|
                           && (forall i :: 0 <= i < |r.value.items| ==>
                                 Success(r.value.items[i]) == ValidateCartItem(p.items.value[i]))
                           && (p.status.None? ==> r.value.status == Pending)
                           && (p.status.Some? ==> StatusName(r.value.status) == p.status.value)
    ensures r.Failure? ==> r.error != []
  {
    LiteralSpellings();
    var errs := OrderViolations(p);
    var vs := ValidateItems(p);
    if errs == [] then
      var status := if p.status.Some? then ParseLiteral(p.status.value, Statuses, StatusName).value else DefaultStatus;
      Success(Order(p.userEmail.value, vs.value, p.total.value, status))
    else Failure(errs)
  }

  /**
   * A refused order: each own field is reported exactly when it breaks its
   * rule, every violation of a rejected item is reported under `items` at its
   * position, and nothing else is.
   */
  lemma OrderRefusal(p: OrderPayload, errs: seq<Violation>)
    requires ValidateOrder(p) == Failure(errs)
    ensures Reported(errs, "user_email", Missing) <==> p.userEmail.None?
    ensures Reported(errs, "items", Missing) <==> p.items.None?
    ensures Reported(errs, "total", Missing) <==> p.total.None?
    ensures Reported(errs, "total", GreaterThanEqual(0.0)) <==> p.total.Some? && p.total.value < 0.0
    ensures Reported(errs, "status", LiteralError(StatusNames)) <==> p.status.Some? && p.status.value !in StatusNames
    ensures ElementsReported(errs, p.items.GetOr([]), ValidateCartItem, "items", 0)
    ensures OnlyElementsReported(errs, p.items.GetOr([]), ValidateCartItem, "items", 0)
    ensures forall v :: v in errs ==> v in OrderRules || (|v.loc| >= 2 && v.loc[0] == Field("items"))
  {
    assert errs == OrderViolations(p);
    OrderViolationsReported(p);
    OrderViolationsSplit(p);
  }

  // ---------- Content ----------

  datatype BlogPost = BlogPost(title: string, slug: string, content: string, cover: Option<string>, tags: seq<string>)

  datatype BlogPostPayload = BlogPostPayload(
    title: Option<string>, slug: Option<string>, content: Option<string>, cover: Option<string>, tags: Option<seq<string>>)

  predicate AcceptsBlogPost(p: BlogPostPayload) {
    p.title.Some? && p.slug.Some? && p.content.Some?
  }

  /** Every violation a blog post can be refused with. */
  const BlogPostRules: seq<Violation> := [
    Violation([Field("title")], Missing), Violation([Field("slug")], Missing), Violation([Field("content")], Missing)]

  /** Title, slug and content are required; the cover is optional and the tags default to empty. */
  function ValidateBlogPost(p: BlogPostPayload): (r: Result<BlogPost, seq<Violation>>)
    ensures r.Success? <==> AcceptsBlogPost(p)
    ensures r.Success? ==> r.value == BlogPost(p.title.value, p.slug.value, p.content.value, p.cover, p.tags.GetOr([]))
    ensures r.Failure? ==> r.error != []
    ensures r.Failure? ==> (Reported(r.error, "title", Missing) <==> p.title.None?)
    ensures r.Failure? ==> (Reported(r.error, "slug", Missing) <==> p.slug.None?)
    ensures r.Failure? ==> (Reported(r.error, "content", Missing) <==> p.content.None?)
    ensures r.Failure? ==> forall v :: v in r.error ==> v in BlogPostRules
  {
    var errs := Required("title", p.title) + Required("slug", p.slug) + Required("content", p.content);
    if errs == [] then Success(BlogPost(p.title.value, p.slug.value, p.content.value, p.cover, p.tags.GetOr([])))
    else Failure(errs)
  }

  datatype ContactMessage = ContactMessage(name: string, email: string, message: string)

  datatype ContactMessagePayload = ContactMessagePayload(name: Option<string>, email: Option<string>, message: Option<string>)

  predicate AcceptsContactMessage(p: ContactMessagePayload) {
    p.name.Some? && p.email.Some? && p.message.Some?
  }

  /** Every violation a contact message can be refused with. */
  const ContactMessageRules: seq<Violation> := [
    Violation([Field("name")], Missing), Violation([Field("email")], Missing), Violation([Field("message")], Missing)]

  /** Name, email and message are required; nothing else is checked. */
  function ValidateContactMessage(p: ContactMessagePayload): (r: Result<ContactMessage, seq<Violation>>)
    ensures r.Success? <==> AcceptsContactMessage(p)
    ensures r.Success? ==> r.value == ContactMessage(p.name.value, p.email.value, p.message.value)
    ensures r.Failure? ==> r.error != []
    ensures r.Failure? ==> (Reported(r.error, "name", Missing) <==> p.name.None?)
    ensures r.Failure? ==> (Reported(r.error, "email", Missing) <==> p.email.None?)
    ensures r.Failure? ==> (Reported(r.error, "message", Missing) <==> p.message.None?)
    ensures r.Failure? ==> forall v :: v in r.error ==> v in ContactMessageRules
  {
    var errs := Required("name", p.name) + Required("email", p.email) + Required("message", p.message);
    if errs == [] then Success(ContactMessage(p.name.value, p.email.value, p.message.value))
    else Failure(errs)
  }

  // ---------- Professionals ----------

  datatype Professional = Professional(businessName: string, vat: Option<string>, email: string, tier: Tier)

  datatype ProfessionalPayload = ProfessionalPayload(
    businessName: Option<string>, vat: Option<string>, email: Option<string>, tier: Option<string>)

  const DefaultTier: Tier := Standard

  predicate AcceptsProfessional(p: ProfessionalPayload) {
    p.businessName.Some? && p.email.Some? && (p.tier.Some? ==> p.tier.value in TierNames)
  }

  /** Every violation a professional can be refused with. */
  const ProfessionalRules: seq<Violation> := [
    Violation([Field("business_name")], Missing), Violation([Field("email")], Missing),
    Violation([Field("tier")], LiteralError(TierNames))]

  /** Business name and email are required; the VAT number is optional; the tier defaults to "standard". */
  function ValidateProfessional(p: ProfessionalPayload): (r: Result<Professional, seq<Violation>>)
    ensures r.Success? <==> AcceptsProfessional(p)
    ensures r.Success? ==> && r.value.businessName == p.businessName.value && r.value.vat == p.vat
                           && r.value.email == p.email.value
                           && (p.tier.None? ==> r.value.tier == Standard)
                           && (p.tier.Some? ==> TierName(r.value.tier) == p.tier.value)
    ensures r.Failure? ==> r.error != []
    ensures r.Failure? ==> (Reported(r.error, "business_name", Missing) <==> p.businessName.None?)
    ensures r.Failure? ==> (Reported(r.error, "email", Missing) <==> p.email.None?)
    ensures r.Failure? ==> (Reported(r.error, "tier", LiteralError(TierNames)) <==> p.tier.Some? && p.tier.value !in TierNames)
    ensures r.Failure? ==> forall v :: v in r.error ==> v in ProfessionalRules
  {
    LiteralSpellings();
    var errs := Required("business_name", p.businessName) + Required("email", p.email)
      + (if p.tier.Some? then Literal("tier", p.tier.value, Tiers, TierName) else []);
    if errs == [] then
      var tier := if p.tier.Some? then ParseLiteral(p.tier.value, Tiers, TierName).value else DefaultTier;
      Success(Professional(p.businessName.value, p.vat, p.email.value, tier))
    else Failure(errs)
  }

  // ---------- Round trips: an entity sent back as a payload is accepted unchanged ----------

  function CategoryPayloadOf(c: Category): CategoryPayload {
    CategoryPayload(Some(c.name), Some(c.slug), c.description, c.heroImage)
  }

  function ProductVariantPayloadOf(v: ProductVariant): ProductVariantPayload {
    ProductVariantPayload(Some(v.colorName), Some(v.hex), Some(FinishName(v.finish)), Some(v.stock))
  }

  function ProductPayloadOf(p: Product): ProductPayload {
    ProductPayload(Some(p.title), Some(p.description), Some(p.category), Some(UsageName(p.usage)), Some(p.basePrice),
      Some(seq(|p.variants|, i requires 0 <= i < |p.variants| => ProductVariantPayloadOf(p.variants[i]))),
      p.techSheetUrl, Some(p.images))
  }

  function ReviewPayloadOf(r: Review): ReviewPayload {
    ReviewPayload(Some(r.productId), Some(r.rating), Some(r.author), r.comment)
  }

  function CartItemPayloadOf(c: CartItem): CartItemPayload {
    CartItemPayload(Some(c.productId), c.variantHex, Some(c.quantity), Some(c.unitPrice))
  }

  function OrderPayloadOf(o: Order): OrderPayload {
    OrderPayload(Some(o.userEmail),
      Some(seq(|o.items|, i requires 0 <= i < |o.items| => CartItemPayloadOf(o.items[i]))),
      Some(o.total), Some(StatusName(o.status)))
  }

  function BlogPostPayloadOf(b: BlogPost): BlogPostPayload {
    BlogPostPayload(Some(b.title), Some(b.slug), Some(b.content), b.cover, Some(b.tags))
  }

  function ContactMessagePayloadOf(m: ContactMessage): ContactMessagePayload {
    ContactMessagePayload(Some(m.name), Some(m.email), Some(m.message))
  }

  function ProfessionalPayloadOf(p: Professional): ProfessionalPayload {
    ProfessionalPayload(Some(p.businessName), p.vat, Some(p.email), Some(TierName(p.tier)))
  }

  lemma {:induction false} CategoryRoundTrip(c: Category)
    ensures ValidateCategory(CategoryPayloadOf(c)) == Success(c)
  {
  }

  lemma {:induction false} ProductVariantRoundTrip(v: ProductVariant)
    ensures ValidateProductVariant(ProductVariantPayloadOf(v)).Success? <==> v.Valid()
    ensures v.Valid() ==> ValidateProductVariant(ProductVariantPayloadOf(v)) == Success(v)
  {
    LiteralSpellings();
    assert FinishName(v.finish) in FinishNames by { FinishRoundTrip(v.finish); }
    if v.Valid() {
      var r := ValidateProductVariant(ProductVariantPayloadOf(v));
      assert FinishName(r.value.finish) == FinishName(v.finish);
      FinishRoundTrip(v.finish);
      FinishRoundTrip(r.value.finish);
    }
  }

  /** A product sent back validates exactly when it is valid, variants included, and then to itself. */
  lemma {:induction false} ProductRoundTrip(p: Product)
    ensures ValidateProduct(ProductPayloadOf(p)).Success? <==> p.Valid()
    ensures p.Valid() ==> ValidateProduct(ProductPayloadOf(p)) == Success(p)
  {
    ProductPayloadAccepted(p);
    if p.Valid() {
      ValidProductRoundTrip(p);
    }
  }

  lemma {:induction false} ProductPayloadAccepted(p: Product)
    ensures AcceptsProduct(ProductPayloadOf(p)) <==> p.Valid()
  {
    LiteralSpellings();
    var pay := ProductPayloadOf(p);
    assert UsageName(p.usage) in UsageNames by { UsageRoundTrip(p.usage); }
    forall i | 0 <= i < |p.variants|
      ensures AcceptsProductVariant(pay.variants.value[i]) <==> p.variants[i].Valid()
    {
      ProductVariantRoundTrip(p.variants[i]);
    }
  }

  lemma {:induction false} ValidProductRoundTrip(p: Product)
    requires p.Valid()
    ensures ValidateProduct(ProductPayloadOf(p)) == Success(p)
  {
    var pay := ProductPayloadOf(p);
    ProductPayloadAccepted(p);
    var r := ValidateProduct(pay);
    assert r.Success?;
    assert r.value.usage == p.usage by {
      UsageRoundTrip(p.usage);
      UsageRoundTrip(r.value.usage);
    }
    assert r.value.variants == p.variants by {
      forall i | 0 <= i < |p.variants|
        ensures ValidateProductVariant(pay.variants.value[i]) == Success(p.variants[i])
      {
        ProductVariantRoundTrip(p.variants[i]);
      }
    }
  }

  lemma {:induction false} ReviewRoundTrip(r: Review)
    ensures ValidateReview(ReviewPayloadOf(r)).Success? <==> r.Valid()
    ensures r.Valid() ==> ValidateReview(ReviewPayloadOf(r)) == Success(r)
  {
  }

  lemma {:induction false} CartItemRoundTrip(c: CartItem)
    ensures ValidateCartItem(CartItemPayloadOf(c)).Success? <==> c.Valid()
    ensures c.Valid() ==> ValidateCartItem(CartItemPayloadOf(c)) == Success(c)
  {
  }

  /** An order sent back validates exactly when it is valid, items included, and then to itself. */
  lemma {:induction false} OrderRoundTrip(o: Order)
    ensures ValidateOrder(OrderPayloadOf(o)).Success? <==> o.Valid()
    ensures o.Valid() ==> ValidateOrder(OrderPayloadOf(o)) == Success(o)
  {
    OrderPayloadAccepted(o);
    if o.Valid() {
      ValidOrderRoundTrip(o);
    }
  }

  lemma {:induction false} OrderPayloadAccepted(o: Order)
    ensures AcceptsOrder(OrderPayloadOf(o)) <==> o.Valid()
  {
    LiteralSpellings();
    var pay := OrderPayloadOf(o);
    assert StatusName(o.status) in StatusNames by { StatusRoundTrip(o.status); }
    forall i | 0 <= i < |o.items|
      ensures AcceptsCartItem(pay.items.value[i]) <==> o.items[i].Valid()
    {
      CartItemRoundTrip(o.items[i]);
    }
  }

  lemma {:induction false} ValidOrderRoundTrip(o: Order)
    requires o.Valid()
    ensures ValidateOrder(OrderPayloadOf(o)) == Success(o)
  {
    var pay := OrderPayloadOf(o);
    forall i | 0 <= i < |o.items|
      ensures ValidateCartItem(pay.items.value[i]) == Success(o.items[i])
    {
      CartItemRoundTrip(o.items[i]);
    }
    OrderPayloadAccepted(o);
    var r := ValidateOrder(pay);
    StatusRoundTrip(o.status);
    StatusRoundTrip(r.value.status);
    assert r.value.status == o.status;
    assert r.value.items == o.items;
  }

  lemma {:induction false} BlogPostRoundTrip(b: BlogPost)
    ensures ValidateBlogPost(BlogPostPayloadOf(b)) == Success(b)
  {
  }

  lemma {:induction false} ContactMessageRoundTrip(m: ContactMessage)
    ensures ValidateContactMessage(ContactMessagePayloadOf(m)) == Success(m)
  {
  }

  lemma {:induction false} ProfessionalRoundTrip(p: Professional)
    ensures ValidateProfessional(ProfessionalPayloadOf(p)) == Success(p)
  {
    LiteralSpellings();
    TierRoundTrip(p.tier);
    var r := ValidateProfessional(ProfessionalPayloadOf(p));
    TierRoundTrip(r.value.tier);
  }

  // ---------- Behaviour on particular bodies ----------

  /** A rating of 6 is refused with one violation naming the field and the bound. */
  lemma RatingAboveBound()
    ensures ValidateReview(ReviewPayload(Some("p1"), Some(6), Some("Ada"), None))
         == Failure([Violation([Field("rating")], LessThanEqual(5.0))])
  {
    var rating := [Violation([Field("rating")], LessThanEqual(5.0))];
    assert Bounded("rating", 6 as real, 1.0, Some(5.0)) == rating;
    assert [] + rating + [] == rating;
  }

  /** An order total of -1 is refused with one violation naming the field and the bound. */
  lemma TotalBelowBound()
    ensures ValidateOrder(OrderPayload(Some("a@b.it"), Some([]), Some(-1.0), None))
         == Failure([Violation([Field("total")], GreaterThanEqual(0.0))])
  {
    var p := OrderPayload(Some("a@b.it"), Some([]), Some(-1.0), None);
    var total := [Violation([Field("total")], GreaterThanEqual(0.0))];
    assert OrderLeadingViolations(p) == [];
    assert ItemViolations(p) == [];
    assert Bounded("total", -1.0, 0.0, None) == total;
    assert OrderTrailingViolations(p) == total;
    assert OrderViolations(p) == total;
  }

  /** A variant stock of -1 is refused with one violation naming the field and the bound. */
  lemma StockBelowBound()
    ensures ValidateProductVariant(ProductVariantPayload(Some("Bianco"), Some("#FFFFFF"), None, Some(-1)))
         == Failure([Violation([Field("stock")], GreaterThanEqual(0.0))])
  {
    var stock := [Violation([Field("stock")], GreaterThanEqual(0.0))];
    assert Bounded("stock", -1 as real, 0.0, None) == stock;
    assert [] + [] + [] + stock == stock;
  }

  /** An invalid item is reported under its position in the order's item list. */
  lemma NestedViolationExample()
    ensures ValidateOrder(OrderPayload(Some("a@b.it"),
              Some([CartItemPayload(Some("p1"), None, None, Some(5.0)),
                    CartItemPayload(Some("p2"), None, Some(0), Some(5.0))]), Some(10.0), None))
         == Failure([Violation([Field("items"), Index(1), Field("quantity")], GreaterThanEqual(1.0))])
  {
    var items := [CartItemPayload(Some("p1"), None, None, Some(5.0)), CartItemPayload(Some("p2"), None, Some(0), Some(5.0))];
    assert ValidateCartItem(items[0]).Success?;
    var quantity := [Violation([Field("quantity")], GreaterThanEqual(1.0))];
    assert Bounded("quantity", 0 as real, 1.0, None) == quantity;
    assert [] + quantity + [] == quantity;
    assert ValidateCartItem(items[1]) == Failure(quantity);
    var nested := [Violation([Field("items"), Index(1), Field("quantity")], GreaterThanEqual(1.0))];
    assert [Field("items"), Index(1)] + quantity[0].loc == nested[0].loc;
    assert Nest("items", 1, quantity) == nested;
    assert items[1..][1..] == [];
    assert nested + [] == nested;
    assert items[1..] == [items[1]];
    assert ValidateEach(items[1..], ValidateCartItem, "items", 1)
        == Failure(nested);
    assert ([] + nested) == nested;
    assert ValidateEach(items, ValidateCartItem, "items", 0) == Failure(nested);
    assert [] + nested + [] + [] == nested;
  }

  /** The order total is not checked against its items: a zero total with a paid item is accepted. */
  lemma OrderTotalUnchecked()
    ensures ValidateOrder(OrderPayload(Some("a@b.it"), Some([CartItemPayload(Some("p1"), None, Some(2), Some(10.0))]),
                                       Some(0.0), None)).Success?
  {
  }

  // ---------- Collections ----------

  datatype Kind =
    | CategoryKind | ProductVariantKind | ProductKind | ReviewKind | CartItemKind | OrderKind
    | BlogPostKind | ContactMessageKind | ProfessionalKind

  function ClassName(k: Kind): string {
    match k
    case CategoryKind => "Category"
    case ProductVariantKind => "ProductVariant"
    case ProductKind => "Product"
    case ReviewKind => "Review"
    case CartItemKind => "CartItem"
    case OrderKind => "Order"
    case BlogPostKind => "BlogPost"
    case ContactMessageKind => "ContactMessage"
    case ProfessionalKind => "Professional"
  }

  function LowerChar(c: char): char {
    if 'A' <= c <= 'Z' then (c as int + 32) as char else c
  }

  function Lower(s: string): (t: string)
    ensures |t| == |s| && forall i :: 0 <= i < |s| ==> t[i] == LowerChar(s[i])
  {
    seq(|s|, i requires 0 <= i < |s| => LowerChar(s[i]))
  }

  /** An entity's collection is named by its class name in lower case. */
  function CollectionName(k: Kind): (name: string)
    ensures |name| == |ClassName(k)|
    ensures forall i :: 0 <= i < |name| ==> !('A' <= name[i] <= 'Z')
    ensures forall i :: 0 <= i < |name| ==>
      if 'A' <= ClassName(k)[i] <= 'Z' then name[i] as int == ClassName(k)[i] as int + 32 else name[i] == ClassName(k)[i]
  {
    Lower(ClassName(k))
  }

  /** The collection names, spelled out: each class name in lower case. */
  lemma CollectionNameSpellings()
    ensures CollectionName(CategoryKind) == "category"
    ensures CollectionName(ProductVariantKind) == "productvariant"
    ensures CollectionName(ProductKind) == "product"
    ensures CollectionName(ReviewKind) == "review"
    ensures CollectionName(CartItemKind) == "cartitem"
    ensures CollectionName(OrderKind) == "order"
    ensures CollectionName(BlogPostKind) == "blogpost"
    ensures CollectionName(ContactMessageKind) == "contactmessage"
    ensures CollectionName(ProfessionalKind) == "professional"
  {
  }

  /** No two entities share a collection. */
  lemma CollectionNamesDistinct(k1: Kind, k2: Kind)
    ensures CollectionName(k1) == CollectionName(k2) <==> k1 == k2
  {
    CollectionNameSpellings();
  }
}
