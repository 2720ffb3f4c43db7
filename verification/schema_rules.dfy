/** The rules the `Field(...)` declarations promise for each model, stated on the typed validators. */
module SchemaRules {
  import opened Wrappers
  import opened Documents
  import opened Schemas

  // ---------------------------------------------------------------- Item

  /** Omitting any required `Item` field fails validation, and the error names that field. */
  lemma ItemMissingFieldRejected(p: Payload, f: string)
    requires f in {"title", "category", "daily_price", "owner_name", "owner_email"}
    requires f !in p
    ensures ValidateItem(p).Err? && FieldError(f, Missing) in ValidateItem(p).error
  {
    var i := if f == "title" then 0 else if f == "category" then 2 else if f == "daily_price" then 3
             else if f == "owner_name" then 4 else 5;
    MissingRequiredReported(p, ItemSchema, i);
  }

  /** A negative `daily_price` fails validation with a bound error on that field. */
  lemma ItemNegativePriceRejected(p: Payload)
    requires "daily_price" in p && (p["daily_price"].Int? || p["daily_price"].Real?)
    requires Numeric(p["daily_price"]) < 0.0
    ensures ValidateItem(p).Err? && FieldError("daily_price", LessThan(0)) in ValidateItem(p).error
  {
    BelowBoundReported(p, ItemSchema, 3);
  }

  /** In a conforming item payload, a new `daily_price` keeps it conforming exactly when it is non-negative. */
  lemma ItemPriceConforms(p: Payload, x: real)
    requires Conforms(p, ItemSchema)
    ensures Conforms(p["daily_price" := Real(x)], ItemSchema) <==> x >= 0.0
  {
    ItemSchemaWellFormed();
    ReplaceField(p, ItemSchema, 3, Real(x));
  }

  /** A supplied float `daily_price` is the validated item's daily price. */
  lemma ItemPriceRead(q: Payload)
    requires ValidateItem(q).Ok? && "daily_price" in q && q["daily_price"].Real?
    ensures ValidateItem(q).value.dailyPrice == q["daily_price"].r
  {
    assert ItemValues(ValidateItem(q).value)[3] == Normalized(q, ItemSchema[3]);
  }

  /** Item validation succeeds exactly on conforming payloads: the first ensures of `ValidateItem`,
      restated as a step so that the proofs below need not unfold the validator. */
  lemma ItemAccepts(q: Payload)
    ensures ValidateItem(q).Ok? <==> Conforms(q, ItemSchema)
  {
  }

  /** Starting from a valid item payload, a new `daily_price` is accepted exactly when it is
      non-negative (so 0 is accepted), and is then the item's price. */
  lemma ItemPriceBoundary(p: Payload, x: real)
    requires ValidateItem(p).Ok?
    ensures ValidateItem(p["daily_price" := Real(x)]).Ok? <==> x >= 0.0
    ensures x >= 0.0 ==> ValidateItem(p["daily_price" := Real(x)]).value.dailyPrice == x
  {
    var q := p["daily_price" := Real(x)];
    ItemAccepts(p);
    ItemAccepts(q);
    ItemPriceConforms(p, x);
    if x >= 0.0 {
      ItemPriceRead(q);
    }
  }

  /** An omitted `description`, `location` or `images` validates to `None`. */
  lemma ItemOptionalsDefaultToNone(p: Payload)
    requires ValidateItem(p).Ok?
    ensures "description" !in p ==> ValidateItem(p).value.description == None
    ensures "location" !in p ==> ValidateItem(p).value.location == None
    ensures "images" !in p ==> ValidateItem(p).value.images == None
  {
  }

  // ---------------------------------------------------------------- Product

  /** A negative `price` fails validation with a bound error on that field. */
  lemma ProductNegativePriceRejected(p: Payload)
    requires "price" in p && (p["price"].Int? || p["price"].Real?)
    requires Numeric(p["price"]) < 0.0
    ensures ValidateProduct(p).Err? && FieldError("price", LessThan(0)) in ValidateProduct(p).error
  {
    BelowBoundReported(p, ProductSchema, 2);
  }

  /** Product validation succeeds exactly on conforming payloads: the first ensures of `ValidateProduct`,
      restated as a step so that the proofs below need not unfold the validator. */
  lemma ProductAccepts(q: Payload)
    ensures ValidateProduct(q).Ok? <==> Conforms(q, ProductSchema)
  {
  }

  /** In a conforming product payload, a new `price` keeps it conforming exactly when it is non-negative. */
  lemma ProductPriceConforms(p: Payload, x: real)
    requires Conforms(p, ProductSchema)
    ensures Conforms(p["price" := Real(x)], ProductSchema) <==> x >= 0.0
  {
    ProductSchemaWellFormed();
    ReplaceField(p, ProductSchema, 2, Real(x));
  }

  /** A supplied float `price` is the validated product's price. */
  lemma ProductPriceRead(q: Payload)
    requires ValidateProduct(q).Ok? && "price" in q && q["price"].Real?
    ensures ValidateProduct(q).value.price == q["price"].r
  {
    assert ProductValues(ValidateProduct(q).value)[2] == Normalized(q, ProductSchema[2]);
  }

  /** Starting from a valid product payload, a new `price` is accepted exactly when it is
      non-negative (so 0 is accepted), and is then the product's price. */
  lemma ProductPriceBoundary(p: Payload, x: real)
    requires ValidateProduct(p).Ok?
    ensures ValidateProduct(p["price" := Real(x)]).Ok? <==> x >= 0.0
    ensures x >= 0.0 ==> ValidateProduct(p["price" := Real(x)]).value.price == x
  {
    var q := p["price" := Real(x)];
    ProductAccepts(p);
    ProductAccepts(q);
    ProductPriceConforms(p, x);
    if x >= 0.0 {
      ProductPriceRead(q);
    }
  }

  /** An omitted `in_stock` validates to true and an omitted `description` to `None`. */
  lemma ProductDefaults(p: Payload)
    requires ValidateProduct(p).Ok?
    ensures "in_stock" !in p ==> ValidateProduct(p).value.inStock
    ensures "description" !in p ==> ValidateProduct(p).value.description == None
  {
  }

  // ---------------------------------------------------------------- User

  /** User validation succeeds exactly on conforming payloads: the first ensures of `ValidateUser`,
      restated as a step so that the proofs below need not unfold the validator. */
  lemma UserAccepts(q: Payload)
    ensures ValidateUser(q).Ok? <==> Conforms(q, UserSchema)
  {
  }

  /** In a conforming user payload, a new integer `age` keeps it conforming exactly when it lies in [0, 120]. */
  lemma UserAgeConforms(p: Payload, a: int)
    requires Conforms(p, UserSchema)
    ensures Conforms(p["age" := Int(a)], UserSchema) <==> 0 <= a <= 120
  {
    UserSchemaWellFormed();
    ReplaceField(p, UserSchema, 3, Int(a));
  }

  /** A supplied integer `age` is the validated user's age. */
  lemma UserAgeRead(q: Payload)
    requires ValidateUser(q).Ok? && "age" in q && q["age"].Int?
    ensures ValidateUser(q).value.age == Some(q["age"].i)
  {
    assert UserValues(ValidateUser(q).value)[3] == Normalized(q, UserSchema[3]);
  }

  /** Starting from a valid user payload, an integer `age` is accepted exactly when it lies
      in [0, 120], both ends included, and is then the user's age. */
  lemma UserAgeBoundary(p: Payload, a: int)
    requires ValidateUser(p).Ok?
    ensures ValidateUser(p["age" := Int(a)]).Ok? <==> 0 <= a <= 120
    ensures 0 <= a <= 120 ==> ValidateUser(p["age" := Int(a)]).value.age == Some(a)
  {
    var q := p["age" := Int(a)];
    UserAccepts(p);
    UserAccepts(q);
    UserAgeConforms(p, a);
    if 0 <= a <= 120 {
      UserAgeRead(q);
    }
  }

  /** An explicit `None` age is accepted, an omitted age is `None`, and an omitted
      `is_active` is true. */
  lemma UserDefaults(p: Payload)
    requires ValidateUser(p).Ok?
    ensures ValidateUser(p["age" := Null]).Ok? && ValidateUser(p["age" := Null]).value.age == None
    ensures "age" !in p ==> ValidateUser(p).value.age == None
    ensures "is_active" !in p ==> ValidateUser(p).value.isActive
  {
    UserSchemaWellFormed();
    ReplaceField(p, UserSchema, 3, Null);
  }

  // ---------------------------------------------------------------- Rental

  /** Omitting any of the seven required `Rental` fields fails validation, naming that field. */
  lemma RentalMissingFieldRejected(p: Payload, f: string)
    requires f in {"item_id", "item_title", "owner_email", "renter_name", "renter_email", "start_date", "end_date"}
    requires f !in p
    ensures ValidateRental(p).Err? && FieldError(f, Missing) in ValidateRental(p).error
  {
    var i := if f == "item_id" then 0 else if f == "item_title" then 1 else if f == "owner_email" then 2
             else if f == "renter_name" then 3 else if f == "renter_email" then 4
             else if f == "start_date" then 5 else 6;
    MissingRequiredReported(p, RentalSchema, i);
  }

  /** Rental validation succeeds exactly on conforming payloads: the first ensures of `ValidateRental`,
      restated as a step so that the proofs below need not unfold the validator. */
  lemma RentalAccepts(q: Payload)
    ensures ValidateRental(q).Ok? <==> Conforms(q, RentalSchema)
  {
  }

  /** In a conforming rental payload, any string `status` keeps it conforming. */
  lemma RentalStatusConforms(p: Payload, st: string)
    requires Conforms(p, RentalSchema)
    ensures Conforms(p["status" := Text(st)], RentalSchema)
  {
    RentalSchemaWellFormed();
    ReplaceField(p, RentalSchema, 8, Text(st));
  }

  /** A validated rental's status is the supplied `status` string, or "pending" when it is omitted. */
  lemma RentalStatusRead(q: Payload)
    requires ValidateRental(q).Ok?
    ensures "status" in q && q["status"].Text? ==> ValidateRental(q).value.status == q["status"].s
    ensures "status" !in q ==> ValidateRental(q).value.status == "pending"
  {
    assert RentalValues(ValidateRental(q).value)[8] == Normalized(q, RentalSchema[8]);
  }

  /** An omitted `status` becomes "pending"; any supplied string is accepted as the status,
      with no check against the documented values. */
  lemma RentalStatusDefaultAndUnchecked(p: Payload, st: string)
    requires ValidateRental(p).Ok?
    ensures "status" !in p ==> ValidateRental(p).value.status == "pending"
    ensures ValidateRental(p["status" := Text(st)]).Ok?
    ensures ValidateRental(p["status" := Text(st)]).value.status == st
  {
    var q := p["status" := Text(st)];
    RentalAccepts(p);
    RentalAccepts(q);
    RentalStatusConforms(p, st);
    RentalStatusRead(p);
    RentalStatusRead(q);
  }
}
