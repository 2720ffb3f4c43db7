/** The schema registry: the `User`, `Product`, `Item` and `Rental` models, validated the way
    the model library treats their `Field(...)` declarations — presence, declared kind,
    `None` for optional fields, defaults for omitted fields, and `ge`/`le` bounds. */
module Schemas {
  import opened Wrappers
  import opened Documents

  /** An untyped request body. */
  type Payload = map<string, Value>

  // ---------------------------------------------------------------- declarations

  /** The declared Python type of a field, without its `Optional[...]` wrapper. */
  datatype Kind = StrKind | BoolKind | IntKind | FloatKind | StrListKind

  /** One `name: type = Field(default, ge=..., le=...)` declaration. A field is required when
      its default is `...`; `nullable` is `Optional[...]`; `default` is used when it is omitted. */
  datatype FieldSpec = FieldSpec(
    name: string, kind: Kind, required: bool, nullable: bool, default: Value,
    ge: Option<int>, le: Option<int>)

  function Required(name: string, kind: Kind): (s: FieldSpec) {
    FieldSpec(name, kind, true, false, Null, None, None)
  }

  function OptionalNone(name: string, kind: Kind): (s: FieldSpec) {
    FieldSpec(name, kind, false, true, Null, None, None)
  }

  function Defaulted(name: string, kind: Kind, default: Value): (s: FieldSpec) {
    FieldSpec(name, kind, false, false, default, None, None)
  }

  const UserSchema: seq<FieldSpec> := [
    Required("name", StrKind),
    Required("email", StrKind),
    Required("address", StrKind),
    FieldSpec("age", IntKind, false, true, Null, Some(0), Some(120)),
    Defaulted("is_active", BoolKind, Bool(true))
  ]

  const ProductSchema: seq<FieldSpec> := [
    Required("title", StrKind),
    OptionalNone("description", StrKind),
    FieldSpec("price", FloatKind, true, false, Null, Some(0), None),
    Required("category", StrKind),
    Defaulted("in_stock", BoolKind, Bool(true))
  ]

  const ItemSchema: seq<FieldSpec> := [
    Required("title", StrKind),
    OptionalNone("description", StrKind),
    Required("category", StrKind),
    FieldSpec("daily_price", FloatKind, true, false, Null, Some(0), None),
    Required("owner_name", StrKind),
    Required("owner_email", StrKind),
    OptionalNone("location", StrKind),
    OptionalNone("images", StrListKind)
  ]

  const RentalSchema: seq<FieldSpec> := [
    Required("item_id", StrKind),
    Required("item_title", StrKind),
    Required("owner_email", StrKind),
    Required("renter_name", StrKind),
    Required("renter_email", StrKind),
    Required("start_date", StrKind),
    Required("end_date", StrKind),
    OptionalNone("message", StrKind),
    Defaulted("status", StrKind, Text("pending"))
  ]

  // ---------------------------------------------------------------- reference meaning

  /** `v` is an acceptable input for a field of kind `k` (an int is accepted where a float is declared). */
  predicate HasKind(k: Kind, v: Value) {
    match k
    case StrKind => v.Text?
    case BoolKind => v.Bool?
    case IntKind => v.Int?
    case FloatKind => v.Int? || v.Real?
    case StrListKind => v.List? && forall e :: e in v.elems ==> e.Text?
  }

  /** The numeric value of an int or float input. */
  function Numeric(v: Value): (x: real) {
    match v
    case Int(i) => i as real
    case Real(r) => r
    case _ => 0.0
  }

  /** The `ge`/`le` bounds of `s` hold for `v`. */
  predicate InBounds(s: FieldSpec, v: Value) {
    && (s.ge.Some? ==> s.ge.value as real <= Numeric(v))
    && (s.le.Some? ==> Numeric(v) <= s.le.value as real)
  }

  /** `v` is an acceptable supplied value for the declaration `s`. */
  predicate Admissible(s: FieldSpec, v: Value) {
    (v.Null? && s.nullable) || (HasKind(s.kind, v) && InBounds(s, v))
  }

  /** The payload satisfies the declaration `s`. */
  ghost predicate FieldConforms(p: Payload, s: FieldSpec) {
    if s.name in p then Admissible(s, p[s.name]) else !s.required
  }

  /** The payload satisfies every declaration of the schema. */
  ghost predicate Conforms(p: Payload, schema: seq<FieldSpec>) {
    forall s :: s in schema ==> FieldConforms(p, s)
  }

  /** The validated value of a conforming field: the supplied value (an int widened to a float
      where a float is declared), or the declared default when the field is omitted. */
  ghost function Normalized(p: Payload, s: FieldSpec): (v: Value) {
    if s.name !in p then s.default
    else if s.kind == FloatKind && p[s.name].Int? then Real(p[s.name].i as real)
    else p[s.name]
  }

  /** The shape a validated value of kind `k` has: a float is always a `Real`. */
  predicate Shaped(k: Kind, v: Value) {
    match k
    case StrKind => v.Text?
    case BoolKind => v.Bool?
    case IntKind => v.Int?
    case FloatKind => v.Real?
    case StrListKind => v.List? && forall e :: e in v.elems ==> e.Text?
  }

  /** A validated value of `s`: shaped by its kind, or `None` for an optional field. */
  predicate Fits(s: FieldSpec, v: Value) {
    Shaped(s.kind, v) || (v.Null? && s.nullable)
  }

  /** The declared default itself fits the field (always the case for the schemas above). */
  predicate DefaultFits(s: FieldSpec) {
    s.required || Fits(s, s.default)
  }

  // ---------------------------------------------------------------- validation

  /** What is wrong with one field. */
  datatype Problem = Missing | WrongType | LessThan(bound: int) | GreaterThan(bound: int)

  datatype FieldError = FieldError(field: string, problem: Problem)

  /** Validates one field: presence first, then `None`, then the kind, then the bounds. */
  function ReadField(p: Payload, s: FieldSpec): (r: Result<Value, FieldError>)
    ensures r.Ok? <==> FieldConforms(p, s)
    ensures r.Ok? ==> r.value == Normalized(p, s)
    ensures r.Ok? && DefaultFits(s) ==> Fits(s, r.value)
    ensures r.Ok? && s.name in p ==> Admissible(s, r.value)
    ensures r.Err? ==> r.error.field == s.name
    ensures r.Err? && s.name !in p ==> r.error.problem == Missing
  {
    if s.name !in p then
      if s.required then Err(FieldError(s.name, Missing)) else Ok(s.default)
    else
      var v := p[s.name];
      if v.Null? then
        if s.nullable then Ok(Null) else Err(FieldError(s.name, WrongType))
      else if !HasKind(s.kind, v) then Err(FieldError(s.name, WrongType))
      else if s.ge.Some? && Numeric(v) < s.ge.value as real then Err(FieldError(s.name, LessThan(s.ge.value)))
      else if s.le.Some? && Numeric(v) > s.le.value as real then Err(FieldError(s.name, GreaterThan(s.le.value)))
      else if s.kind == FloatKind && v.Int? then Ok(Real(v.i as real))
      else Ok(v)
  }

  /** `errors` holds the error of every field of `schema` that `p` does not satisfy, and only those. */
  ghost predicate Reports(errors: seq<FieldError>, p: Payload, schema: seq<FieldSpec>) {
    && errors != []
    && (forall s :: s in schema && !FieldConforms(p, s) ==> ReadField(p, s).Err? && ReadField(p, s).error in errors)
    && (forall e :: e in errors ==> exists s :: s in schema && !FieldConforms(p, s) && ReadField(p, s) == Err(e))
  }

  /** Validates every field of a schema; on failure, every failing field is reported, in
      declaration order, and nothing else is. */
  function Validate(p: Payload, schema: seq<FieldSpec>): (r: Result<seq<Value>, seq<FieldError>>)
    ensures r.Ok? <==> Conforms(p, schema)
    ensures r.Ok? ==> |r.value| == |schema|
    ensures r.Ok? ==> forall i :: 0 <= i < |schema| ==> r.value[i] == Normalized(p, schema[i])
    ensures r.Ok? ==> forall i :: 0 <= i < |schema| && DefaultFits(schema[i]) ==> Fits(schema[i], r.value[i])
    ensures r.Ok? ==> forall i :: 0 <= i < |schema| && schema[i].name in p ==> Admissible(schema[i], r.value[i])
    ensures r.Err? ==> Reports(r.error, p, schema)
  {
    if schema == [] then Ok([])
    else
      var head := ReadField(p, schema[0]);
      var tail := Validate(p, schema[1..]);
      assert forall i :: 0 < i < |schema| ==> schema[i] == schema[1..][i - 1];
      match (head, tail)
      case (Ok(v), Ok(vs)) => Ok([v] + vs)
      case (Ok(_), Err(es)) => Err(es)
      case (Err(e), Ok(_)) => Err([e])
      case (Err(e), Err(es)) => Err([e] + es)
  }

  // ---------------------------------------------------------------- validated payloads

  /** No two declarations of `schema` share a name. */
  predicate UniqueNames(schema: seq<FieldSpec>) {
    forall i, j :: 0 <= i < j < |schema| ==> schema[i].name != schema[j].name
  }

  /** The declared field names. */
  function Names(schema: seq<FieldSpec>): (names: set<string>) {
    set s | s in schema :: s.name
  }

  /** The payload holding `vs[i]` under the name of the `i`-th declaration. */
  function DumpOf(schema: seq<FieldSpec>, vs: seq<Value>): (m: Payload)
    requires |vs| == |schema|
    ensures m.Keys == Names(schema)
    ensures UniqueNames(schema) ==> forall i :: 0 <= i < |schema| ==> m[schema[i].name] == vs[i]
  {
    if schema == [] then map[]
    else
      var rest := DumpOf(schema[1..], vs[1..]);
      assert forall s :: s in schema <==> s == schema[0] || s in schema[1..];
      assert UniqueNames(schema) ==> UniqueNames(schema[1..]) by {
        if UniqueNames(schema) {
          forall i, j | 0 <= i < j < |schema[1..]| ensures schema[1..][i].name != schema[1..][j].name {
            assert schema[1..][i] == schema[i + 1] && schema[1..][j] == schema[j + 1];
          }
        }
      }
      rest[schema[0].name := vs[0]]
  }

  /** `dump` is the validated form of `p` under `schema`: exactly the declared fields, each holding
      the supplied value or its default. Undeclared payload fields are dropped. */
  ghost predicate Describes(dump: Payload, p: Payload, schema: seq<FieldSpec>) {
    && (forall s :: s in schema ==> s.name in dump && dump[s.name] == Normalized(p, s))
    && dump.Keys == Names(schema)
  }

  /** The values a successful validation produces, laid out under their names, describe the payload. */
  lemma ValidatedDumpDescribes(p: Payload, schema: seq<FieldSpec>)
    requires UniqueNames(schema)
    requires Validate(p, schema).Ok?
    ensures Describes(DumpOf(schema, Validate(p, schema).value), p, schema)
  {
    var vs := Validate(p, schema).value;
    var dump := DumpOf(schema, vs);
    forall s | s in schema ensures s.name in dump && dump[s.name] == Normalized(p, s) {
      var i :| 0 <= i < |schema| && schema[i] == s;
    }
  }

  /** Laying validated values out under their names and validating the result gives the same
      values back, provided each value is admissible for its declaration. */
  lemma DumpValidates(schema: seq<FieldSpec>, vs: seq<Value>)
    requires UniqueNames(schema) && FitsAll(schema, vs)
    requires forall i :: 0 <= i < |schema| ==> Admissible(schema[i], vs[i])
    ensures Validate(DumpOf(schema, vs), schema) == Ok(vs)
  {
    var dump := DumpOf(schema, vs);
    DumpConforms(schema, vs);
    var r := Validate(dump, schema);
    assert |r.value| == |vs|;
    assert forall i :: 0 <= i < |vs| ==> r.value[i] == vs[i];
    assert r.value == vs;
    assert r == Ok(vs);
  }

  /** Laying out admissible values gives a conforming payload whose validated values are those values. */
  lemma DumpConforms(schema: seq<FieldSpec>, vs: seq<Value>)
    requires UniqueNames(schema) && FitsAll(schema, vs)
    requires forall i :: 0 <= i < |schema| ==> Admissible(schema[i], vs[i])
    ensures Conforms(DumpOf(schema, vs), schema)
    ensures forall i :: 0 <= i < |schema| ==> Normalized(DumpOf(schema, vs), schema[i]) == vs[i]
  {
    var dump := DumpOf(schema, vs);
    forall i | 0 <= i < |schema|
      ensures FieldConforms(dump, schema[i]) && Normalized(dump, schema[i]) == vs[i]
    {
      DumpOfAt(schema, vs, i);
    }
    forall s | s in schema ensures FieldConforms(dump, s) {
      var i :| 0 <= i < |schema| && schema[i] == s;
    }
  }

  /** The `i`-th declaration's name holds the `i`-th value. */
  lemma DumpOfAt(schema: seq<FieldSpec>, vs: seq<Value>, i: int)
    requires UniqueNames(schema) && |vs| == |schema| && 0 <= i < |schema|
    ensures schema[i].name in DumpOf(schema, vs) && DumpOf(schema, vs)[schema[i].name] == vs[i]
  {
    assert schema[i] in schema;
  }

  /** Laying out values one of which its declaration does not admit gives a payload that fails the schema. */
  lemma DumpRejects(schema: seq<FieldSpec>, vs: seq<Value>, i: int)
    requires UniqueNames(schema) && |vs| == |schema|
    requires 0 <= i < |schema| && !Admissible(schema[i], vs[i])
    ensures !Conforms(DumpOf(schema, vs), schema)
  {
    DumpOfAt(schema, vs, i);
    assert schema[i] in schema;
  }

  /** A required field that is omitted is reported as missing. */
  lemma MissingRequiredReported(p: Payload, schema: seq<FieldSpec>, i: int)
    requires 0 <= i < |schema| && schema[i].required && schema[i].name !in p
    ensures Validate(p, schema).Err?
    ensures FieldError(schema[i].name, Missing) in Validate(p, schema).error
  {
    assert schema[i] in schema;
  }

  /** A number below the field's `ge` bound is reported as too small. */
  lemma BelowBoundReported(p: Payload, schema: seq<FieldSpec>, i: int)
    requires 0 <= i < |schema| && schema[i].ge.Some?
    requires schema[i].name in p && HasKind(schema[i].kind, p[schema[i].name])
    requires Numeric(p[schema[i].name]) < schema[i].ge.value as real
    ensures Validate(p, schema).Err?
    ensures FieldError(schema[i].name, LessThan(schema[i].ge.value)) in Validate(p, schema).error
  {
    assert schema[i] in schema;
  }

  /** In a conforming payload, replacing the value of one declared field keeps the payload
      conforming exactly when the new value is admissible for that field. */
  lemma ReplaceField(p: Payload, schema: seq<FieldSpec>, i: int, v: Value)
    requires UniqueNames(schema) && Conforms(p, schema) && 0 <= i < |schema|
    ensures Conforms(p[schema[i].name := v], schema) <==> Admissible(schema[i], v)
  {
    var q := p[schema[i].name := v];
    assert schema[i] in schema;
    if Admissible(schema[i], v) {
      forall s | s in schema ensures FieldConforms(q, s) {
        var j :| 0 <= j < |schema| && schema[j] == s;
        if j != i {
          assert FieldConforms(p, s);
        }
      }
    }
  }

  /** A required field of a validated payload holds a value its declaration admits. */
  lemma RequiredAdmitted(p: Payload, schema: seq<FieldSpec>, vs: seq<Value>, i: int)
    requires Validate(p, schema) == Ok(vs) && 0 <= i < |schema| && schema[i].required
    ensures Admissible(schema[i], vs[i])
  {
    assert schema[i] in schema;
  }

  /** Every field of `schema` validates to its own default when omitted. */
  predicate DefaultsFit(schema: seq<FieldSpec>) {
    forall i :: 0 <= i < |schema| ==> DefaultFits(schema[i])
  }

  /** The `User` declarations have distinct names and defaults that fit them. */
  lemma UserSchemaWellFormed()
    ensures UniqueNames(UserSchema) && DefaultsFit(UserSchema)
  {
  }

  /** The `Product` declarations have distinct names and defaults that fit them. */
  lemma ProductSchemaWellFormed()
    ensures UniqueNames(ProductSchema) && DefaultsFit(ProductSchema)
  {
  }

  /** The `Item` declarations have distinct names and defaults that fit them. */
  lemma ItemSchemaWellFormed()
    ensures UniqueNames(ItemSchema) && DefaultsFit(ItemSchema)
  {
  }

  /** The `Rental` declarations have distinct names and defaults that fit them. */
  lemma RentalSchemaWellFormed()
    ensures UniqueNames(RentalSchema) && DefaultsFit(RentalSchema)
  {
  }

  // ---------------------------------------------------------------- typed records

  datatype User = User(name: string, email: string, address: string, age: Option<int>, isActive: bool)

  datatype Product = Product(
    title: string, description: Option<string>, price: real, category: string, inStock: bool)

  datatype Item = Item(
    title: string, description: Option<string>, category: string, dailyPrice: real,
    ownerName: string, ownerEmail: string, location: Option<string>, images: Option<seq<string>>)

  datatype Rental = Rental(
    itemId: string, itemTitle: string, ownerEmail: string, renterName: string, renterEmail: string,
    startDate: string, endDate: string, message: Option<string>, status: string)

  /** The range constraints a validated record satisfies. */
  predicate UserValid(u: User) {
    u.age.Some? ==> 0 <= u.age.value <= 120
  }

  predicate ProductValid(pr: Product) {
    pr.price >= 0.0
  }

  predicate ItemValid(it: Item) {
    it.dailyPrice >= 0.0
  }

  /** Validated values, one per declaration, that fit their declarations. */
  predicate FitsAll(schema: seq<FieldSpec>, vs: seq<Value>) {
    |vs| == |schema| && forall i :: 0 <= i < |schema| ==> Fits(schema[i], vs[i])
  }

  function OptionalText(v: Value): (o: Option<string>)
    requires v.Null? || v.Text?
  {
    if v.Null? then None else Some(v.s)
  }

  function OptionalInt(v: Value): (o: Option<int>)
    requires v.Null? || v.Int?
  {
    if v.Null? then None else Some(v.i)
  }

  function OptionalTexts(v: Value): (o: Option<seq<string>>)
    requires v.Null? || (v.List? && forall e :: e in v.elems ==> e.Text?)
  {
    if v.Null? then None else Some(seq(|v.elems|, i requires 0 <= i < |v.elems| => v.elems[i].s))
  }

  function TextOrNull(o: Option<string>): (v: Value)
    ensures (v.Null? || v.Text?) && OptionalText(v) == o
  {
    if o.Some? then Text(o.value) else Null
  }

  function IntOrNull(o: Option<int>): (v: Value)
    ensures (v.Null? || v.Int?) && OptionalInt(v) == o
  {
    if o.Some? then Int(o.value) else Null
  }

  function TextsOrNull(o: Option<seq<string>>): (v: Value)
    ensures (v.Null? || (v.List? && forall e :: e in v.elems ==> e.Text?))
    ensures OptionalTexts(v) == o
  {
    if o.Some? then
      var v := List(seq(|o.value|, i requires 0 <= i < |o.value| => Text(o.value[i])));
      assert OptionalTexts(v).value == o.value;
      v
    else Null
  }

  /** Reading a validated optional value and writing it back gives the same value. */
  lemma OptionalValuesRoundTrip(v: Value)
    ensures v.Null? || v.Text? ==> TextOrNull(OptionalText(v)) == v
    ensures v.Null? || v.Int? ==> IntOrNull(OptionalInt(v)) == v
    ensures v.Null? || (v.List? && forall e :: e in v.elems ==> e.Text?) ==> TextsOrNull(OptionalTexts(v)) == v
  {
    if v.List? && forall e :: e in v.elems ==> e.Text? {
      var back := TextsOrNull(OptionalTexts(v));
      assert forall i :: 0 <= i < |v.elems| ==> v.elems[i] in v.elems;
      assert back.elems == v.elems;
    }
  }

  // User

  function UserValues(u: User): (vs: seq<Value>)
    ensures FitsAll(UserSchema, vs)
  {
    [Text(u.name), Text(u.email), Text(u.address), IntOrNull(u.age), Bool(u.isActive)]
  }

  function UserOf(vs: seq<Value>): (u: User)
    requires FitsAll(UserSchema, vs)
    ensures UserValues(u) == vs
  {
    OptionalValuesRoundTrip(vs[3]);
    User(vs[0].s, vs[1].s, vs[2].s, OptionalInt(vs[3]), vs[4].b)
  }

  /** `User(...).model_dump()`. */
  function UserDump(u: User): (dump: Payload) {
    DumpOf(UserSchema, UserValues(u))
  }

  /** The values validated from `p` respect the age bounds. */
  lemma UserBoundsHold(p: Payload, vs: seq<Value>)
    requires Validate(p, UserSchema) == Ok(vs)
    ensures FitsAll(UserSchema, vs) && UserValid(UserOf(vs))
  {
    UserSchemaWellFormed();
    var s := UserSchema[3];
    if s.name in p {
      assert Admissible(s, vs[3]);
    } else {
      assert vs[3] == Normalized(p, s);
    }
  }

  /** `User(**p)`. */
  function ValidateUser(p: Payload): (r: Result<User, seq<FieldError>>)
    ensures r.Ok? <==> Conforms(p, UserSchema)
    ensures r.Ok? ==> UserValid(r.value)
    ensures r.Ok? ==> forall i :: 0 <= i < |UserSchema| ==> UserValues(r.value)[i] == Normalized(p, UserSchema[i])
    ensures r.Err? ==> Reports(r.error, p, UserSchema)
  {
    UserSchemaWellFormed();
    match Validate(p, UserSchema)
    case Err(es) => Err(es)
    case Ok(vs) =>
      UserBoundsHold(p, vs);
      Ok(UserOf(vs))
  }

  /** The dump of a validated user holds exactly the declared fields, each with the supplied
      value or its default; undeclared payload fields are dropped. */
  lemma UserDumpDescribes(p: Payload)
    requires ValidateUser(p).Ok?
    ensures Describes(UserDump(ValidateUser(p).value), p, UserSchema)
  {
    UserSchemaWellFormed();
    ValidatedDumpDescribes(p, UserSchema);
    assert UserValues(ValidateUser(p).value) == Validate(p, UserSchema).value;
  }

  // Product

  function ProductValues(pr: Product): (vs: seq<Value>)
    ensures FitsAll(ProductSchema, vs)
  {
    [Text(pr.title), TextOrNull(pr.description), Real(pr.price), Text(pr.category), Bool(pr.inStock)]
  }

  function ProductOf(vs: seq<Value>): (pr: Product)
    requires FitsAll(ProductSchema, vs)
    ensures ProductValues(pr) == vs
  {
    OptionalValuesRoundTrip(vs[1]);
    Product(vs[0].s, OptionalText(vs[1]), vs[2].r, vs[3].s, vs[4].b)
  }

  /** `Product(...).model_dump()`. */
  function ProductDump(pr: Product): (dump: Payload) {
    DumpOf(ProductSchema, ProductValues(pr))
  }

  /** The values validated from `p` respect the price bounds. */
  lemma ProductBoundsHold(p: Payload, vs: seq<Value>)
    requires Validate(p, ProductSchema) == Ok(vs)
    ensures FitsAll(ProductSchema, vs) && ProductValid(ProductOf(vs))
  {
    ProductSchemaWellFormed();
    RequiredAdmitted(p, ProductSchema, vs, 2);
  }


  /** `Product(**p)`. */
  function ValidateProduct(p: Payload): (r: Result<Product, seq<FieldError>>)
    ensures r.Ok? <==> Conforms(p, ProductSchema)
    ensures r.Ok? ==> ProductValid(r.value)
    ensures r.Ok? ==> forall i :: 0 <= i < |ProductSchema| ==> ProductValues(r.value)[i] == Normalized(p, ProductSchema[i])
    ensures r.Err? ==> Reports(r.error, p, ProductSchema)
  {
    ProductSchemaWellFormed();
    match Validate(p, ProductSchema)
    case Err(es) => Err(es)
    case Ok(vs) =>
      ProductBoundsHold(p, vs);
      Ok(ProductOf(vs))
  }

  /** The dump of a validated product holds exactly the declared fields, each with the supplied
      value or its default; undeclared payload fields are dropped. */
  lemma ProductDumpDescribes(p: Payload)
    requires ValidateProduct(p).Ok?
    ensures Describes(ProductDump(ValidateProduct(p).value), p, ProductSchema)
  {
    ProductSchemaWellFormed();
    ValidatedDumpDescribes(p, ProductSchema);
    assert ProductValues(ValidateProduct(p).value) == Validate(p, ProductSchema).value;
  }

  // Item

  function ItemValues(it: Item): (vs: seq<Value>)
    ensures FitsAll(ItemSchema, vs)
  {
    [Text(it.title), TextOrNull(it.description), Text(it.category), Real(it.dailyPrice),
     Text(it.ownerName), Text(it.ownerEmail), TextOrNull(it.location), TextsOrNull(it.images)]
  }

  function ItemOf(vs: seq<Value>): (it: Item)
    requires FitsAll(ItemSchema, vs)
    ensures ItemValues(it) == vs
  {
    OptionalValuesRoundTrip(vs[1]);
    OptionalValuesRoundTrip(vs[6]);
    OptionalValuesRoundTrip(vs[7]);
    Item(vs[0].s, OptionalText(vs[1]), vs[2].s, vs[3].r, vs[4].s, vs[5].s,
         OptionalText(vs[6]), OptionalTexts(vs[7]))
  }

  /** `Item(...).model_dump()`. */
  function ItemDump(it: Item): (dump: Payload) {
    DumpOf(ItemSchema, ItemValues(it))
  }

  /** The values validated from `p` respect the daily price bounds. */
  lemma ItemBoundsHold(p: Payload, vs: seq<Value>)
    requires Validate(p, ItemSchema) == Ok(vs)
    ensures FitsAll(ItemSchema, vs) && ItemValid(ItemOf(vs))
  {
    ItemSchemaWellFormed();
    RequiredAdmitted(p, ItemSchema, vs, 3);
  }


  /** `Item(**p)`. */
  function ValidateItem(p: Payload): (r: Result<Item, seq<FieldError>>)
    ensures r.Ok? <==> Conforms(p, ItemSchema)
    ensures r.Ok? ==> ItemValid(r.value)
    ensures r.Ok? ==> forall i :: 0 <= i < |ItemSchema| ==> ItemValues(r.value)[i] == Normalized(p, ItemSchema[i])
    ensures r.Err? ==> Reports(r.error, p, ItemSchema)
  {
    ItemSchemaWellFormed();
    match Validate(p, ItemSchema)
    case Err(es) => Err(es)
    case Ok(vs) =>
      ItemBoundsHold(p, vs);
      Ok(ItemOf(vs))
  }

  /** The dump of a validated item holds exactly the declared fields, each with the supplied
      value or its default; undeclared payload fields are dropped. */
  lemma ItemDumpDescribes(p: Payload)
    requires ValidateItem(p).Ok?
    ensures Describes(ItemDump(ValidateItem(p).value), p, ItemSchema)
  {
    ItemSchemaWellFormed();
    ValidatedDumpDescribes(p, ItemSchema);
    assert ItemValues(ValidateItem(p).value) == Validate(p, ItemSchema).value;
  }

  // Rental

  function RentalValues(rn: Rental): (vs: seq<Value>)
    ensures FitsAll(RentalSchema, vs)
  {
    [Text(rn.itemId), Text(rn.itemTitle), Text(rn.ownerEmail), Text(rn.renterName),
     Text(rn.renterEmail), Text(rn.startDate), Text(rn.endDate), TextOrNull(rn.message), Text(rn.status)]
  }

  function RentalOf(vs: seq<Value>): (rn: Rental)
    requires FitsAll(RentalSchema, vs)
    ensures RentalValues(rn) == vs
  {
    OptionalValuesRoundTrip(vs[7]);
    Rental(vs[0].s, vs[1].s, vs[2].s, vs[3].s, vs[4].s, vs[5].s, vs[6].s, OptionalText(vs[7]), vs[8].s)
  }

  /** `Rental(...).model_dump()`. */
  function RentalDump(rn: Rental): (dump: Payload) {
    DumpOf(RentalSchema, RentalValues(rn))
  }

  /** `Rental(**p)`. */
  function ValidateRental(p: Payload): (r: Result<Rental, seq<FieldError>>)
    ensures r.Ok? <==> Conforms(p, RentalSchema)
    ensures r.Ok? ==> forall i :: 0 <= i < |RentalSchema| ==> RentalValues(r.value)[i] == Normalized(p, RentalSchema[i])
    ensures r.Err? ==> Reports(r.error, p, RentalSchema)
  {
    RentalSchemaWellFormed();
    match Validate(p, RentalSchema)
    case Err(es) => Err(es)
    case Ok(vs) =>
      Ok(RentalOf(vs))
  }

  /** The dump of a validated rental holds exactly the declared fields, each with the supplied
      value or its default; undeclared payload fields are dropped. */
  lemma RentalDumpDescribes(p: Payload)
    requires ValidateRental(p).Ok?
    ensures Describes(RentalDump(ValidateRental(p).value), p, RentalSchema)
  {
    RentalSchemaWellFormed();
    ValidatedDumpDescribes(p, RentalSchema);
    assert RentalValues(ValidateRental(p).value) == Validate(p, RentalSchema).value;
  }

  // ---------------------------------------------------------------- round trips

  /** Every value of a valid user is admissible for its declaration. */
  lemma UserValuesAdmissible(u: User)
    requires UserValid(u)
    ensures forall i :: 0 <= i < |UserSchema| ==> Admissible(UserSchema[i], UserValues(u)[i])
  {
    var vs := UserValues(u);
    forall i | 0 <= i < |UserSchema| ensures Admissible(UserSchema[i], vs[i]) {
        if i == 3 && u.age.Some? { assert vs[3] == Int(u.age.value); }
    }
  }

  /** Reading a user back from its values gives the same user. */
  lemma UserOfValues(u: User)
    ensures FitsAll(UserSchema, UserValues(u)) && UserOf(UserValues(u)) == u
  {
    var vs := UserValues(u);
    assert UserValues(UserOf(vs)) == vs;
  }

  /** A dumped user validates back to itself exactly when its age is in range. */
  lemma UserRoundTrip(u: User)
    ensures ValidateUser(UserDump(u)).Ok? <==> UserValid(u)
    ensures UserValid(u) ==> ValidateUser(UserDump(u)) == Ok(u)
  {
    if UserValid(u) {
      UserDumpAccepted(u);
    } else {
      UserDumpNotConforming(u);
    }
  }

  lemma UserDumpAccepted(u: User)
    requires UserValid(u)
    ensures ValidateUser(UserDump(u)) == Ok(u)
  {
    UserSchemaWellFormed();
    var vs := UserValues(u);
    UserValuesAdmissible(u);
    DumpValidates(UserSchema, vs);
    UserOfValues(u);
  }

  lemma UserDumpNotConforming(u: User)
    requires !UserValid(u)
    ensures !Conforms(UserDump(u), UserSchema)
  {
    assert UniqueNames(UserSchema) by { UserSchemaWellFormed(); }
    DumpRejects(UserSchema, UserValues(u), 3);
  }

  /** Every value of a valid product is admissible for its declaration. */
  lemma ProductValuesAdmissible(pr: Product)
    requires ProductValid(pr)
    ensures forall i :: 0 <= i < |ProductSchema| ==> Admissible(ProductSchema[i], ProductValues(pr)[i])
  {
    var vs := ProductValues(pr);
    forall i | 0 <= i < |ProductSchema| ensures Admissible(ProductSchema[i], vs[i]) {
    }
  }

  /** Reading a product back from its values gives the same product. */
  lemma ProductOfValues(pr: Product)
    ensures FitsAll(ProductSchema, ProductValues(pr)) && ProductOf(ProductValues(pr)) == pr
  {
    var vs := ProductValues(pr);
    assert ProductValues(ProductOf(vs)) == vs;
  }

  /** A dumped product validates back to itself exactly when its price is non-negative. */
  lemma ProductRoundTrip(pr: Product)
    ensures ValidateProduct(ProductDump(pr)).Ok? <==> ProductValid(pr)
    ensures ProductValid(pr) ==> ValidateProduct(ProductDump(pr)) == Ok(pr)
  {
    if ProductValid(pr) {
      ProductDumpAccepted(pr);
    } else {
      ProductDumpNotConforming(pr);
    }
  }

  lemma ProductDumpAccepted(pr: Product)
    requires ProductValid(pr)
    ensures ValidateProduct(ProductDump(pr)) == Ok(pr)
  {
    ProductSchemaWellFormed();
    var vs := ProductValues(pr);
    ProductValuesAdmissible(pr);
    DumpValidates(ProductSchema, vs);
    ProductOfValues(pr);
  }

  lemma ProductDumpNotConforming(pr: Product)
    requires !ProductValid(pr)
    ensures !Conforms(ProductDump(pr), ProductSchema)
  {
    assert UniqueNames(ProductSchema) by { ProductSchemaWellFormed(); }
    DumpRejects(ProductSchema, ProductValues(pr), 2);
  }

  /** Every value of a valid item is admissible for its declaration. */
  lemma ItemValuesAdmissible(it: Item)
    requires ItemValid(it)
    ensures forall i :: 0 <= i < |ItemSchema| ==> Admissible(ItemSchema[i], ItemValues(it)[i])
  {
    var vs := ItemValues(it);
    forall i | 0 <= i < |ItemSchema| ensures Admissible(ItemSchema[i], vs[i]) {
    }
  }

  /** Reading an item back from its values gives the same item. */
  lemma ItemOfValues(it: Item)
    ensures FitsAll(ItemSchema, ItemValues(it)) && ItemOf(ItemValues(it)) == it
  {
    var vs := ItemValues(it);
    assert ItemValues(ItemOf(vs)) == vs;
  }

  /** A dumped item validates back to itself exactly when its daily price is non-negative. */
  lemma ItemRoundTrip(it: Item)
    ensures ValidateItem(ItemDump(it)).Ok? <==> ItemValid(it)
    ensures ItemValid(it) ==> ValidateItem(ItemDump(it)) == Ok(it)
  {
    if ItemValid(it) {
      ItemDumpAccepted(it);
    } else {
      ItemDumpNotConforming(it);
    }
  }

  lemma ItemDumpAccepted(it: Item)
    requires ItemValid(it)
    ensures ValidateItem(ItemDump(it)) == Ok(it)
  {
    ItemSchemaWellFormed();
    var vs := ItemValues(it);
    ItemValuesAdmissible(it);
    DumpValidates(ItemSchema, vs);
    ItemOfValues(it);
  }

  lemma ItemDumpNotConforming(it: Item)
    requires !ItemValid(it)
    ensures !Conforms(ItemDump(it), ItemSchema)
  {
    assert UniqueNames(ItemSchema) by { ItemSchemaWellFormed(); }
    DumpRejects(ItemSchema, ItemValues(it), 3);
  }

  /** Every rental validates back to itself after a dump: the schema has no range constraint. */
  lemma RentalRoundTrip(rn: Rental)
    ensures ValidateRental(RentalDump(rn)) == Ok(rn)
  {
    RentalSchemaWellFormed();
    DumpValidates(RentalSchema, RentalValues(rn));
  }
}
