# Rental marketplace backend: listing and schema validation

This project models the deterministic core of a small FastAPI/MongoDB rental marketplace
backend. It has two parts.

- **Listing** (`main.py`).
  - `GET /api/items` (`list_items`) turns an optional `category` into an equality filter and
    fetches the matching stored items. When a query `q` is given, it keeps the items whose
    lower-cased `title` or `description` contains the lower-cased `q`. It then replaces every
    truthy `_id` by its string form.
  - `GET /api/rentals` (`list_rentals`) builds an AND filter from optional `owner_email` and
    `renter_email`, fetches the matching rentals and converts `_id` the same way.
- **Schema validation** (`schemas.py`). The `User`, `Product`, `Item` and `Rental` models check
  that required fields are present and that values have the declared type. Omitted optional
  fields get their defaults. The `ge`/`le` bounds are enforced on `age`, `price` and
  `daily_price`.

Modules:

| file | module | contents |
|---|---|---|
| wrappers.dfy | `Wrappers` | `Option` and `Result` |
| seqs.dfy | `Seqs` | order-preserving subsequences, `Filter` |
| text.dfy | `Text` | ASCII `str.lower()`, the string `in` operator against a reference definition |
| documents.dfy | `Documents` | document values, Python truthiness, `str()`, the `_id` conversion |
| storage.dfy | `Storage` | the storage call `get_documents`, under a stated assumption |
| listing.dfy | `Listing` | `list_items`, `list_rentals` and their properties |
| schemas.dfy | `Schemas` | field declarations, generic validation, the four models, dump/validate round trips |
| schema_rules.dfy | `SchemaRules` | the per-model rules that the `Field(...)` declarations promise |

Modelling decisions:

- **Storage.** `database.py` is not part of this model. `get_documents(name, filter)` is assumed
  to return the documents of the named collection that hold every filter field with exactly the
  filter's value, in collection order (`Storage.Find`).
- **`str()`.** `str()` of a string is the string itself. For any other value, including a
  MongoDB ObjectId, the result comes from a parameter `render`, which stands for Python's
  formatting.
- **Search errors.** `i.get("title", "").lower()` raises when a title is present but is not a
  string, for example `None`. The same holds for a truthy `description` that is not a string;
  because of `or` short-circuiting, the description is only read when the title does not match.
  The handler turns that exception into HTTP 500. Here it is the result `Err(NotText(field))`,
  and the whole listing fails.
- **Validation.** A payload is a map from names to values. Each field must have exactly its
  declared kind. The one exception is an `int` supplied for a `float` field, which is widened.
  `None` is accepted only for `Optional[...]` fields, and bounds are checked only on non-`None`
  values. Undeclared payload keys are dropped. Every failing field is reported, and defaults are
  not validated. A validated record is rebuilt as a payload by its dump (`UserDump`, ...).
- **Values.** A stored or submitted value is `None`, a bool, an int, a float, a string, a list,
  a nested document (`Object`), or an ObjectId. A nested document is falsy exactly when it is
  empty, fits no declared field kind, and raises when it reaches `.lower()`.

Three behaviours of the code worth noting:

- A missing title or description is searched as `""`. A title that is present but `None`
  raises, as shown above; it is not treated as `""`.
- Only a truthy `_id` is converted (`if i.get("_id")`). An absent or falsy `_id` is left as it is.
- An omitted `images` is `None`, not an empty list.

## Model

| member | source | states |
|---|---|---|
| Listing.ItemFilter | main.py:80-82 | the filter has the key `category` exactly when a non-empty category is given, maps it to that exact string, and has no other key |
| Listing.ItemFilterMeaning | main.py:80-83 | a stored document matches the item filter exactly when it has the requested category; with no category every document matches |
| Listing.RentalFilter | main.py:109-113 | `owner_email` is a key exactly when a non-empty owner is given and `renter_email` exactly when a non-empty renter is given, each with its exact value, and there are no other keys |
| Listing.Given | main.py:81 | `if x:` on an optional query string holds exactly when the value is present and truthy, i.e. not `None` and not "" |
| Listing.RentalFilterMeaning | main.py:109-114 | a rental matches the filter exactly when it satisfies both the owner condition and the renter condition |
| Listing.RentalMatchingOnlyOwnerExcluded | main.py:109-118 | with both emails given, a stored rental that matches the owner but not the renter is not in the result |
| Storage.Find | main.py:83 | under the storage assumption, the fetched documents are exactly the collection's documents that match the filter, each as many times as it occurs in the collection, as an order-preserving subsequence of the collection |
| Storage.EmptyFilterFindsAll | main.py:80-83 | an empty filter fetches the whole collection, in order |
| Text.Contains | main.py:87 | `needle in hay` is true exactly when `needle` occurs in `hay` at some position |
| Text.Lower | main.py:86-87 | `s.lower()` keeps the length, lower-cases each ASCII capital, leaves every other character alone, and leaves no ASCII capital in the result |
| Text.LowerIdempotent | main.py:86-87 | lower-casing twice equals lower-casing once |
| Listing.TitleText | main.py:87 | `i.get("title", "")` can be lower-cased exactly when the title is absent or a string; an absent title reads as "" |
| Listing.NestedDescription | main.py:87 | a nested document as description reads as "" when it is `{}`, and makes the search raise when it is not empty |
| Listing.DescriptionText | main.py:87 | `(i.get("description", "") or "")` can be lower-cased exactly when the description is absent, falsy or a string; absent or falsy reads as "" |
| Listing.KeepForQuery | main.py:87 | the condition does not raise exactly when the title is readable and either the title contains the query or the description is readable; when it does not raise, it keeps the document exactly when the query is in the lower-cased title or the lower-cased description |
| Listing.Search | main.py:85-87 | the search succeeds exactly when no document raises; a kept document is one that contains the query in title or description, and every such document is kept as many times as it occurs (so every dropped one contains it in neither); the result is an order-preserving subsequence of the input |
| Listing.SearchIsFilter | main.py:85-87 | a successful search returns exactly the input filtered by the reference criterion (query in lower-cased title or description), order and duplicates included |
| Listing.SearchIdempotent | main.py:85-87 | searching the result again with the same query gives the same result |
| Listing.ListItems | main.py:77-92 | with no query the listing always succeeds; with a query it succeeds exactly when no stored document of the category raises; on success the result is exactly the `item` collection filtered by the reference selection (category matches, and the query is in title or description when given), in storage order with duplicates kept, each with its `_id` converted; in particular every returned item has the requested category, contains the query and is the converted form of a stored item, every qualifying stored item is returned, every truthy `_id` is a string, and the result is an order-preserving subsequence of the converted collection |
| Listing.ListItemsUnfiltered | main.py:80-92 | without a query the result is the id-converted storage result in storage order; without a category as well it is the whole `item` collection |
| Listing.ListItemsCaseInsensitive | main.py:85-87 | a query and its lower-cased form give the same listing |
| Listing.ItemSelection | main.py:80-87 | the documents kept before the `_id` conversion, with or without a query, are the `item` collection filtered by the reference selection |
| Listing.StringifyIdsSubsequence | main.py:89-91 | converting identifiers keeps an order-preserving subsequence one |
| Listing.ListRentals | main.py:106-118 | the result is exactly the `rental` collection filtered by both email conditions, in storage order with duplicates kept, each with its `_id` converted; in particular every returned rental satisfies both conditions, every stored rental that satisfies both is returned, every truthy `_id` is a string, and the result is an order-preserving subsequence of the converted collection |
| Listing.StringifyIdKeepsSearchFields | main.py:87-91 | converting `_id` changes neither whether a document contains the query, nor its category match, nor any email match |
| Listing.StringifyIdsMembership | main.py:89-91 | the converted list holds exactly the conversions of the original documents |
| Documents.StringifyId | main.py:90-91 | a truthy `_id` becomes the string `str(_id)`; every other field, and the whole document when `_id` is absent or falsy, is unchanged; the set of keys is unchanged |
| Documents.StringifyIds | main.py:89-91 | the loop keeps the list length, and each position holds the conversion of the document at that position |
| Documents.Truthy | main.py:87-90 | a value is falsy exactly when it is `None`, `False`, `0`, `0.0`, "", `[]` or `{}`; everything else, an ObjectId included, is truthy |
| Documents.StrOfIdempotent | main.py:91 | `str(str(x)) == str(x)`: the string form of any value, an ObjectId or a nested document included, is its own string form, whatever the formatting of non-strings |
| Documents.StringifiedIdsAreText | main.py:89-91 | after the conversion every truthy `_id` is a string and every other field is as stored |
| Documents.StringifyIdKeepsText | main.py:90-91 | a document whose `_id` is already a string, or is absent or falsy, is unchanged |
| Documents.StringifyIdsIdempotent | main.py:89-91 | converting twice equals converting once |
| Schemas.ReadField | schemas.py:24-71 | one field validates exactly when it is omitted and not required, or present with an admissible value; the result is the supplied value, widened to a float where needed, or the default; a failure names the field, and an omitted required field is reported as missing |
| Schemas.Validate | schemas.py:19-71 | a payload validates exactly when every declared field conforms; the values are the normalized fields in declaration order and fit their declarations; on failure, the error of every non-conforming field is reported and nothing else |
| Schemas.DumpOf | schemas.py:19-71 | the dump has exactly the declared field names as keys, and each holds its field's value |
| Schemas.ValidatedDumpDescribes | schemas.py:19-71 | the dump of a validated payload holds exactly the declared fields, each with the supplied value or its default |
| Schemas.DumpValidates | schemas.py:19-71 | validating the dump of admissible values gives those values back |
| Schemas.DumpConforms | schemas.py:19-71 | the dump of admissible values conforms, and each field normalizes to its own value |
| Schemas.DumpRejects | schemas.py:19-71 | a dump holding a value that its field does not admit does not conform |
| Schemas.MissingRequiredReported | schemas.py:24-71 | an omitted required field makes validation fail with a `Missing` error for that field |
| Schemas.BelowBoundReported | schemas.py:27 | a number below a field's `ge` bound makes validation fail with a `LessThan` error for that field |
| Schemas.RequiredAdmitted | schemas.py:24-71 | a required field of a validated payload holds a value of the declared kind within its bounds |
| Schemas.ReplaceField | schemas.py:19-71 | in a conforming payload, replacing one field keeps it conforming exactly when the new value is admissible |
| Schemas.UserSchemaWellFormed | schemas.py:24-28 | the `User` declarations have distinct names and defaults that fit them |
| Schemas.ProductSchemaWellFormed | schemas.py:35-39 | the `Product` declarations have distinct names and defaults that fit them |
| Schemas.ItemSchemaWellFormed | schemas.py:49-56 | the `Item` declarations have distinct names and defaults that fit them |
| Schemas.RentalSchemaWellFormed | schemas.py:63-71 | the `Rental` declarations have distinct names and defaults that fit them |
| Schemas.ValidateUser | schemas.py:19-28 | a `User` is built exactly when the payload conforms; its age then lies in [0, 120] when present; its fields are the normalized payload fields; failures are reported field by field |
| Schemas.ValidateProduct | schemas.py:30-39 | a `Product` is built exactly when the payload conforms; its price is then non-negative; its fields are the normalized payload fields; failures are reported field by field |
| Schemas.ValidateItem | schemas.py:44-56 | an `Item` is built exactly when the payload conforms; its daily price is then non-negative; its fields are the normalized payload fields; failures are reported field by field |
| Schemas.ValidateRental | schemas.py:58-71 | a `Rental` is built exactly when the payload conforms; its fields are the normalized payload fields; failures are reported field by field |
| Schemas.UserDumpDescribes | schemas.py:19-28 | a validated user's dump holds exactly its declared fields, with the supplied values or defaults |
| Schemas.ProductDumpDescribes | schemas.py:30-39 | a validated product's dump holds exactly its declared fields, with the supplied values or defaults |
| Schemas.ItemDumpDescribes | schemas.py:44-56 | a validated item's dump holds exactly its declared fields, with the supplied values or defaults |
| Schemas.RentalDumpDescribes | schemas.py:58-71 | a validated rental's dump holds exactly its declared fields, with the supplied values or defaults |
| Schemas.UserRoundTrip | schemas.py:19-28 | a dumped user validates exactly when its age is in range, and then validates back to itself |
| Schemas.ProductRoundTrip | schemas.py:30-39 | a dumped product validates exactly when its price is non-negative, and then validates back to itself |
| Schemas.ItemRoundTrip | schemas.py:44-56 | a dumped item validates exactly when its daily price is non-negative, and then validates back to itself |
| Schemas.RentalRoundTrip | schemas.py:58-71 | every dumped rental validates back to itself |
| Schemas.UserOf | schemas.py:19-28 | rebuilding a user from validated values and reading its values back gives the same values |
| Schemas.ProductOf | schemas.py:30-39 | rebuilding a product from validated values and reading its values back gives the same values |
| Schemas.ItemOf | schemas.py:44-56 | rebuilding an item from validated values and reading its values back gives the same values |
| Schemas.RentalOf | schemas.py:58-71 | rebuilding a rental from validated values and reading its values back gives the same values |
| Schemas.OptionalValuesRoundTrip | schemas.py:27-70 | an optional text, int or string-list value (`None` or present), as declared for `age`, `description`, `location`, `images` and `message`, survives reading it into a record and writing it back |
| SchemaRules.ItemMissingFieldRejected | schemas.py:49-54 | omitting any of `title`, `category`, `daily_price`, `owner_name`, `owner_email` fails, with a `Missing` error naming that field |
| SchemaRules.ItemNegativePriceRejected | schemas.py:52 | a negative `daily_price` fails with a `LessThan(0)` error on that field |
| SchemaRules.ItemPriceBoundary | schemas.py:52 | from a valid item payload, a new `daily_price` is accepted exactly when it is at least 0, and is then the item's price |
| SchemaRules.ItemPriceRead | schemas.py:52 | a supplied float `daily_price` is the validated item's daily price |
| SchemaRules.ItemOptionalsDefaultToNone | schemas.py:50-56 | an omitted `description`, `location` or `images` validates to `None` |
| SchemaRules.ProductNegativePriceRejected | schemas.py:37 | a negative `price` fails with a `LessThan(0)` error on that field |
| SchemaRules.ProductPriceBoundary | schemas.py:37 | from a valid product payload, a new `price` is accepted exactly when it is at least 0, and is then the product's price |
| SchemaRules.ProductPriceRead | schemas.py:37 | a supplied float `price` is the validated product's price |
| SchemaRules.ProductDefaults | schemas.py:36-39 | an omitted `in_stock` is true and an omitted `description` is `None` |
| SchemaRules.UserAgeBoundary | schemas.py:27 | from a valid user payload, an integer `age` is accepted exactly when it lies in [0, 120], both ends included, and is then the user's age |
| SchemaRules.UserAgeRead | schemas.py:27 | a supplied integer `age` is the validated user's age |
| SchemaRules.UserDefaults | schemas.py:27-28 | an explicit `None` age is accepted, an omitted age is `None`, and an omitted `is_active` is true |
| SchemaRules.RentalMissingFieldRejected | schemas.py:63-69 | omitting any of the seven required string fields fails, with a `Missing` error naming that field |
| SchemaRules.RentalStatusDefaultAndUnchecked | schemas.py:71 | an omitted `status` is "pending", and any supplied string is accepted as the status |
| SchemaRules.RentalStatusRead | schemas.py:71 | a validated rental's status is the supplied string, or "pending" when `status` is omitted |
| Seqs.Filter | main.py:83 | the filtered sequence holds exactly the elements that satisfy the predicate, in their original order |
| Seqs.FilterCount | main.py:83 | every element that satisfies the predicate is kept as many times as it occurs, and no other element is kept |
| Seqs.FilterThenFilter | main.py:83-87 | filtering by one predicate and then by another is filtering once by their conjunction |

## Left out

- The `/test` diagnostic endpoint (main.py:29-63): it probes the database and reads environment variables, which is I/O.
- `create_item` and `request_rental` (main.py:67-103): they pass a validated record to `create_document` in `database.py`, which is not part of this model. Their validation is `ValidateItem` / `ValidateRental`. The property "a created item is then listed exactly once" depends on the insert and is not stated.
- HTTP plumbing: `HTTPException` and the mapping of failures to status 500, the 422 that the framework returns before a handler runs, CORS middleware and `uvicorn` start-up (main.py:13-19, main.py:122-125).
- Text.Lower: maps only the ASCII letters A-Z, while Python's `str.lower()` maps all of Unicode.
- Documents.Value: MongoDB's other BSON types (binary data, datetime, Decimal128, regular expressions, timestamps) are not values here; a document holding one cannot be expressed.
- Documents.StrOf: the text of `str()` for non-string values, including the 24-hex-digit form of an ObjectId, is the parameter `render` and is not modelled.
- Storage.Find: MongoDB's matching of a scalar filter value against array elements, and its type-bracketed equality, are not modelled. Equality here is plain value equality.
- Schemas.Validate: Pydantic's lax coercions are not modelled, so a numeric string for a number or `1`/`"true"` for a bool is rejected here. The one modelled coercion is int to float. Float semantics (NaN, infinity, rounding) are modelled with Dafny's `real`.
- Schemas.Validate: the error value keeps only the field and the kind of problem, not Pydantic's message text. The contract states which errors are reported, not the order in which they appear.
- Listing.Search: on failure the error names the field of the first document that raised. The contract states when the search fails, not which field it names.
- Concurrency and the storage connection lifecycle: every operation is modelled as a pure function over a snapshot of the database.
