/** The two list endpoints: `list_items` (category filter, case-insensitive search over title
    and description, `_id` conversion) and `list_rentals` (owner/renter filter, `_id` conversion). */
module Listing {
  import opened Wrappers
  import opened Seqs
  import opened Text
  import opened Documents
  import opened Storage

  const CategoryField: string := "category"
  const TitleField: string := "title"
  const DescriptionField: string := "description"
  const OwnerEmailField: string := "owner_email"
  const RenterEmailField: string := "renter_email"

  /** Python's `if x:` on an optional string query parameter: present and non-empty. */
  predicate Given(x: Option<string>): (r: bool)
    ensures r <==> x.Some? && Truthy(Text(x.value))
  {
    x.Some? && x.value != ""
  }

  // ---------------------------------------------------------------- filters

  /** The filter `list_items` hands to storage. */
  function ItemFilter(category: Option<string>): (f: EqFilter)
    ensures CategoryField in f <==> Given(category)
    ensures Given(category) ==> f[CategoryField] == Text(category.value)
    ensures forall k :: k in f ==> k == CategoryField
  {
    if Given(category) then map[CategoryField := Text(category.value)] else map[]
  }

  /** The filter `list_rentals` hands to storage; both conditions accumulate. */
  function RentalFilter(owner: Option<string>, renter: Option<string>): (f: EqFilter)
    ensures OwnerEmailField in f <==> Given(owner)
    ensures RenterEmailField in f <==> Given(renter)
    ensures Given(owner) ==> f[OwnerEmailField] == Text(owner.value)
    ensures Given(renter) ==> f[RenterEmailField] == Text(renter.value)
    ensures forall k :: k in f ==> k == OwnerEmailField || k == RenterEmailField
  {
    var f1: EqFilter := if Given(owner) then map[OwnerEmailField := Text(owner.value)] else map[];
    if Given(renter) then f1[RenterEmailField := Text(renter.value)] else f1
  }

  /** `d` carries the requested category exactly (no condition when none is requested). */
  ghost predicate CategoryMatches(category: Option<string>, d: Document) {
    Given(category) ==> CategoryField in d && d[CategoryField] == Text(category.value)
  }

  /** `d` has `field` equal to the requested string (no condition when none is requested). */
  ghost predicate EmailMatches(field: string, email: Option<string>, d: Document) {
    Given(email) ==> field in d && d[field] == Text(email.value)
  }

  // ---------------------------------------------------------------- search

  /** The search fails (HTTP 500) when `.lower()` is applied to a value that is not a string. */
  datatype SearchError = NotText(field: string)

  /** `i.get("title", "")` can be lower-cased: absent, or a string. */
  ghost predicate TitleReadable(d: Document) {
    TitleField !in d || d[TitleField].Text?
  }

  /** `(i.get("description", "") or "")` can be lower-cased: absent, falsy, or a string. */
  ghost predicate DescriptionReadable(d: Document) {
    DescriptionField !in d || !Truthy(d[DescriptionField]) || d[DescriptionField].Text?
  }

  /** The title as searched text: a missing title reads as "". */
  ghost function TitleOf(d: Document): (r: string) {
    if TitleField in d && d[TitleField].Text? then d[TitleField].s else ""
  }

  /** The description as searched text: a missing, None or otherwise falsy description reads as "". */
  ghost function DescriptionOf(d: Document): (r: string) {
    if DescriptionField in d && d[DescriptionField].Text? then d[DescriptionField].s else ""
  }

  /** Reference selection criterion: the lower-cased query occurs in the lower-cased title
      or in the lower-cased description. */
  ghost predicate Selected(d: Document, qLower: string) {
    HasSubstring(Lower(TitleOf(d)), qLower) || HasSubstring(Lower(DescriptionOf(d)), qLower)
  }

  /** Evaluating the search condition on `d` raises. `or` short-circuits, so the description
      is only looked at when the title does not contain the query. */
  ghost predicate Raises(d: Document, qLower: string) {
    !TitleReadable(d) || (!HasSubstring(Lower(TitleOf(d)), qLower) && !DescriptionReadable(d))
  }

  /** `i.get("title", "")`, ready for `.lower()`. */
  function TitleText(d: Document): (r: Result<string, SearchError>)
    ensures r.Ok? <==> TitleReadable(d)
    ensures r.Ok? ==> r.value == TitleOf(d)
  {
    if TitleField !in d then Ok("")
    else if d[TitleField].Text? then Ok(d[TitleField].s)
    else Err(NotText(TitleField))
  }

  /** `(i.get("description", "") or "")`, ready for `.lower()`. */
  function DescriptionText(d: Document): (r: Result<string, SearchError>)
    ensures r.Ok? <==> DescriptionReadable(d)
    ensures r.Ok? ==> r.value == DescriptionOf(d)
  {
    if DescriptionField !in d || !Truthy(d[DescriptionField]) then Ok("")
    else if d[DescriptionField].Text? then Ok(d[DescriptionField].s)
    else Err(NotText(DescriptionField))
  }

  /** A nested document as description: `{}` is falsy, so `or ""` turns it into "", while a
      non-empty one reaches `.lower()` and raises. */
  lemma NestedDescription(d: Document, fields: map<string, Value>)
    ensures DescriptionText(d[DescriptionField := Object(fields)]) ==
      if fields == map[] then Ok("") else Err(NotText(DescriptionField))
  {
  }

  /** The comprehension's condition on one document. */
  function KeepForQuery(d: Document, qLower: string): (r: Result<bool, SearchError>)
    ensures r.Ok? <==> !Raises(d, qLower)
    ensures r.Ok? ==> (r.value <==> Selected(d, qLower))
  {
    var title :- TitleText(d);
    if Contains(Lower(title), qLower) then Ok(true)
    else
      var description :- DescriptionText(d);
      Ok(Contains(Lower(description), qLower))
  }

  /** The list comprehension of `list_items`: the first document whose condition raises
      aborts the whole search. */
  function Search(docs: seq<Document>, qLower: string): (r: Result<seq<Document>, SearchError>)
    ensures r.Ok? <==> forall k :: 0 <= k < |docs| ==> !Raises(docs[k], qLower)
    ensures r.Ok? ==> forall d :: d in r.value <==> d in docs && Selected(d, qLower)
    ensures r.Ok? ==> forall d :: multiset(r.value)[d] == if Selected(d, qLower) then multiset(docs)[d] else 0
    ensures r.Ok? ==> IsSubsequence(r.value, docs)
    ensures r.Ok? ==> |r.value| <= |docs|
  {
    if docs == [] then
      EmptySubsequence(docs);
      Ok([])
    else
      assert docs == [docs[0]] + docs[1..];
      var keep :- KeepForQuery(docs[0], qLower);
      var rest :- Search(docs[1..], qLower);
      SubsequenceCons(docs[0], rest, docs[1..]);
      Ok(if keep then [docs[0]] + rest else rest)
  }

  /** Searching a search result again with the same query changes nothing. */
  lemma {:induction false} SearchIdempotent(docs: seq<Document>, qLower: string)
    requires Search(docs, qLower).Ok?
    ensures Search(Search(docs, qLower).value, qLower) == Search(docs, qLower)
  {
    if docs != [] {
      SearchIdempotent(docs[1..], qLower);
      var rest := Search(docs[1..], qLower).value;
      if KeepForQuery(docs[0], qLower).value {
        assert ([docs[0]] + rest)[1..] == rest;
      }
    }
  }

  /** A successful search keeps exactly what filtering by the reference criterion keeps. */
  lemma {:induction false} SearchIsFilter(docs: seq<Document>, qLower: string, keep: Document -> bool)
    requires Search(docs, qLower).Ok?
    requires forall d :: keep(d) <==> Selected(d, qLower)
    ensures Search(docs, qLower).value == Filter(docs, keep)
  {
    if docs != [] {
      SearchIsFilter(docs[1..], qLower, keep);
    }
  }

  // ---------------------------------------------------------------- endpoints

  /** Reference selection of `list_items`: the category matches and, when a query is given,
      the lower-cased query occurs in the lower-cased title or description. */
  ghost function ItemWanted(category: Option<string>, q: Option<string>): (p: Document -> bool)
    ensures forall d :: p(d) <==> CategoryMatches(category, d) && (Given(q) ==> Selected(d, Lower(q.value)))
  {
    d => CategoryMatches(category, d) && (Given(q) ==> Selected(d, Lower(q.value)))
  }

  /** Reference selection of `list_rentals`: both email conditions hold. */
  ghost function RentalWanted(owner: Option<string>, renter: Option<string>): (p: Document -> bool)
    ensures forall d :: p(d) <==> EmailMatches(OwnerEmailField, owner, d) && EmailMatches(RenterEmailField, renter, d)
  {
    d => EmailMatches(OwnerEmailField, owner, d) && EmailMatches(RenterEmailField, renter, d)
  }

  /** Converting identifiers keeps a subsequence a subsequence. */
  lemma StringifyIdsSubsequence(a: seq<Document>, b: seq<Document>, render: Value -> string)
    requires IsSubsequence(a, b)
    ensures IsSubsequence(StringifyIds(a, render), StringifyIds(b, render))
  {
    var idx :| Embeds(idx, a, b);
    assert Embeds(idx, StringifyIds(a, render), StringifyIds(b, render));
  }

  /** The documents `list_items` keeps before converting identifiers are the collection filtered by
      the reference selection. */
  lemma ItemSelection(db: Database, q: Option<string>, category: Option<string>, items: seq<Document>)
    requires if Given(q) then Search(Find(db, ItemCollection, ItemFilter(category)), Lower(q.value)) == Ok(items)
             else items == Find(db, ItemCollection, ItemFilter(category))
    ensures items == Filter(Collection(db, ItemCollection), ItemWanted(category, q))
  {
    var coll := Collection(db, ItemCollection);
    var byCategory := Matching(ItemFilter(category));
    ItemFilterMeaning(category);
    if Given(q) {
      var selected: Document -> bool := d => Selected(d, Lower(q.value));
      SearchIsFilter(Filter(coll, byCategory), Lower(q.value), selected);
      FilterThenFilter(coll, byCategory, selected, ItemWanted(category, q));
    } else {
      FilterAgree(coll, byCategory, ItemWanted(category, q));
    }
  }

  /** The identifier conversion leaves every searched and filtered field alone. */
  lemma StringifyIdKeepsSearchFields(render: Value -> string)
    ensures forall d, qLower :: Selected(StringifyId(d, render), qLower) <==> Selected(d, qLower)
    ensures forall d, c :: CategoryMatches(c, StringifyId(d, render)) <==> CategoryMatches(c, d)
    ensures forall d, f, e :: f != IdField ==>
      (EmailMatches(f, e, StringifyId(d, render)) <==> EmailMatches(f, e, d))
  {
  }

  /** Storage's match on the item filter is exactly the category condition. */
  lemma ItemFilterMeaning(category: Option<string>)
    ensures forall d :: Matches(ItemFilter(category), d) <==> CategoryMatches(category, d)
  {
  }

  /** Storage's match on the rental filter is exactly the conjunction of both email conditions. */
  lemma RentalFilterMeaning(owner: Option<string>, renter: Option<string>)
    ensures forall d ::
      Matches(RentalFilter(owner, renter), d)
      <==> EmailMatches(OwnerEmailField, owner, d) && EmailMatches(RenterEmailField, renter, d)
  {
    var f := RentalFilter(owner, renter);
    forall d | EmailMatches(OwnerEmailField, owner, d) && EmailMatches(RenterEmailField, renter, d)
      ensures Matches(f, d)
    {
      forall k | k in f ensures k in d && d[k] == f[k] {
      }
    }
  }

  /** The converted list holds exactly the conversions of the original documents. */
  lemma StringifyIdsMembership(docs: seq<Document>, render: Value -> string)
    ensures forall x :: x in StringifyIds(docs, render) <==> exists d :: d in docs && x == StringifyId(d, render)
  {
    var r := StringifyIds(docs, render);
    forall x | x in r ensures exists d :: d in docs && x == StringifyId(d, render) {
      var k :| 0 <= k < |r| && r[k] == x;
      assert docs[k] in docs;
    }
    forall d | d in docs ensures StringifyId(d, render) in r {
      var k :| 0 <= k < |docs| && docs[k] == d;
      assert r[k] == StringifyId(d, render);
    }
  }

  /** GET /api/items. */
  function ListItems(db: Database, q: Option<string>, category: Option<string>, render: Value -> string)
    : (r: Result<seq<Document>, SearchError>)
    ensures !Given(q) ==> r.Ok?
    ensures Given(q) ==>
      (r.Ok? <==> forall d :: d in Collection(db, ItemCollection) && CategoryMatches(category, d)
                             ==> !Raises(d, Lower(q.value)))
    ensures r.Ok? ==> |r.value| <= |Collection(db, ItemCollection)|
    ensures r.Ok? ==> forall x :: x in r.value ==>
      && CategoryMatches(category, x)
      && (Given(q) ==> Selected(x, Lower(q.value)))
      && (exists d :: d in Collection(db, ItemCollection) && x == StringifyId(d, render))
    ensures r.Ok? ==> forall d ::
      && d in Collection(db, ItemCollection)
      && CategoryMatches(category, d)
      && (Given(q) ==> Selected(d, Lower(q.value)))
      ==> StringifyId(d, render) in r.value
    ensures r.Ok? ==> forall x: Document :: x in r.value && IdField in x && Truthy(x[IdField]) ==> x[IdField].Text?
    ensures r.Ok? ==> r.value == StringifyIds(Filter(Collection(db, ItemCollection), ItemWanted(category, q)), render)
    ensures r.Ok? ==> IsSubsequence(r.value, StringifyIds(Collection(db, ItemCollection), render))
  {
    var stored := Find(db, ItemCollection, ItemFilter(category));
    ItemFilterMeaning(category);
    var items :- if Given(q) then Search(stored, Lower(q.value)) else Ok(stored);
    ItemSelection(db, q, category, items);
    StringifyIdsSubsequence(items, Collection(db, ItemCollection), render);
    StringifyIdsMembership(items, render);
    StringifyIdKeepsSearchFields(render);
    Ok(StringifyIds(items, render))
  }

  /** GET /api/rentals. */
  function ListRentals(db: Database, owner: Option<string>, renter: Option<string>, render: Value -> string)
    : (r: seq<Document>)
    ensures |r| <= |Collection(db, RentalCollection)|
    ensures forall x :: x in r ==>
      && EmailMatches(OwnerEmailField, owner, x)
      && EmailMatches(RenterEmailField, renter, x)
      && (exists d :: d in Collection(db, RentalCollection) && x == StringifyId(d, render))
    ensures forall d ::
      && d in Collection(db, RentalCollection)
      && EmailMatches(OwnerEmailField, owner, d)
      && EmailMatches(RenterEmailField, renter, d)
      ==> StringifyId(d, render) in r
    ensures forall x: Document :: x in r && IdField in x && Truthy(x[IdField]) ==> x[IdField].Text?
    ensures r == StringifyIds(Filter(Collection(db, RentalCollection), RentalWanted(owner, renter)), render)
    ensures IsSubsequence(r, StringifyIds(Collection(db, RentalCollection), render))
  {
    var stored := Find(db, RentalCollection, RentalFilter(owner, renter));
    RentalFilterMeaning(owner, renter);
    FilterAgree(Collection(db, RentalCollection), Matching(RentalFilter(owner, renter)), RentalWanted(owner, renter));
    StringifyIdsSubsequence(stored, Collection(db, RentalCollection), render);
    StringifyIdKeepsSearchFields(render);
    StringifyIdsMembership(stored, render);
    StringifyIds(stored, render)
  }

  /** Without a query the stored list comes back unsearched, in storage order, with only the
      identifiers converted; without a category either, that is the whole collection. */
  lemma ListItemsUnfiltered(db: Database, q: Option<string>, category: Option<string>, render: Value -> string)
    requires !Given(q)
    ensures ListItems(db, q, category, render) == Ok(StringifyIds(Find(db, ItemCollection, ItemFilter(category)), render))
    ensures !Given(category) ==> ListItems(db, q, category, render) == Ok(StringifyIds(Collection(db, ItemCollection), render))
  {
    if !Given(category) {
      assert ItemFilter(category) == map[];
      EmptyFilterFindsAll(db, ItemCollection);
    }
  }

  /** The search ignores the case of the query: a query and its lower-cased form give the same answer. */
  lemma ListItemsCaseInsensitive(db: Database, q: string, category: Option<string>, render: Value -> string)
    ensures ListItems(db, Some(q), category, render) == ListItems(db, Some(Lower(q)), category, render)
  {
    LowerIdempotent(q);
    assert Given(Some(q)) <==> Given(Some(Lower(q)));
  }

  /** With both emails given, a rental that matches the owner but not the renter is not returned. */
  lemma RentalMatchingOnlyOwnerExcluded(
    db: Database, owner: Option<string>, renter: Option<string>, render: Value -> string, d: Document)
    requires Given(owner) && Given(renter)
    requires d in Collection(db, RentalCollection)
    requires EmailMatches(OwnerEmailField, owner, d) && !EmailMatches(RenterEmailField, renter, d)
    ensures StringifyId(d, render) !in ListRentals(db, owner, renter, render)
  {
    StringifyIdKeepsSearchFields(render);
  }
}
