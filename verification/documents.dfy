/** Stored documents as the handlers see them: string-keyed maps of JSON-like values,
    Python truthiness, `str()`, and the conversion of `_id` to its string form. */
module Documents {

  /** A storage-native identifier (a MongoDB ObjectId), opaque to the application. */
  datatype NativeId = NativeId(serial: nat)

  /** The values a document field or a request payload field can hold; `Object` is a
      nested document (a subdocument, or a Python dict in a payload). */
  datatype Value =
    | Null
    | Bool(b: bool)
    | Int(i: int)
    | Real(r: real)
    | Text(s: string)
    | List(elems: seq<Value>)
    | Object(fields: map<string, Value>)
    | Id(id: NativeId)

  /** A document, or an untyped request payload: field name to value. */
  type Document = map<string, Value>

  /** The field under which storage keeps a document's identifier. */
  const IdField: string := "_id"

  /** Python truthiness: None, False, zero, "", [] and {} are false; every other value,
      an ObjectId included, is true. */
  predicate Truthy(v: Value): (r: bool)
    ensures !r <==> (v == Null || v == Bool(false) || v == Int(0) || v == Real(0.0)
                  || v == Text("") || v == List([]) || v == Object(map[]))
  {
    match v
    case Null => false
    case Bool(b) => b
    case Int(i) => i != 0
    case Real(r) => r != 0.0
    case Text(s) => s != ""
    case List(elems) => elems != []
    case Object(fields) => fields != map[]
    case Id(_) => true
  }

  /** Python's `str(v)`. A string is its own `str`; every other value is rendered by `render`,
      which stands for Python's formatting of it (the 24-hex-digit form of an ObjectId,
      the decimal form of a number, ...). */
  function StrOf(v: Value, render: Value -> string): (r: string)
    ensures v.Text? ==> r == v.s
    ensures !v.Text? ==> r == render(v)
  {
    if v.Text? then v.s else render(v)
  }

  /** `str(str(x)) == str(x)`: the string form of a value is its own string form, whatever
      `render` does with non-strings. */
  lemma StrOfIdempotent(v: Value, render: Value -> string)
    ensures StrOf(Text(StrOf(v, render)), render) == StrOf(v, render)
  {
  }

  /** The body of the `_id` loop for one document: a truthy `_id` is replaced by its `str()`. */
  function StringifyId(d: Document, render: Value -> string): (r: Document)
    ensures r.Keys == d.Keys
    ensures forall f :: f in d && f != IdField ==> r[f] == d[f]
    ensures IdField in d && Truthy(d[IdField]) ==> r[IdField] == Text(StrOf(d[IdField], render))
    ensures !(IdField in d && Truthy(d[IdField])) ==> r == d
  {
    if IdField in d && Truthy(d[IdField]) then d[IdField := Text(StrOf(d[IdField], render))] else d
  }

  /** The whole `_id` loop over a result list. */
  function StringifyIds(docs: seq<Document>, render: Value -> string): (r: seq<Document>)
    ensures |r| == |docs|
    ensures forall k :: 0 <= k < |r| ==> r[k] == StringifyId(docs[k], render)
  {
    seq(|docs|, k requires 0 <= k < |docs| => StringifyId(docs[k], render))
  }

  /** After the conversion no document carries a truthy `_id` that is not a string,
      and nothing but `_id` differs from the input. */
  lemma StringifiedIdsAreText(docs: seq<Document>, render: Value -> string)
    ensures forall k :: 0 <= k < |docs| ==>
      var r := StringifyIds(docs, render)[k];
      && r.Keys == docs[k].Keys
      && (IdField in r && Truthy(r[IdField]) ==> r[IdField].Text?)
      && (IdField in docs[k] && Truthy(docs[k][IdField]) ==> r[IdField].Text?)
      && (forall f :: f in r && f != IdField ==> r[f] == docs[k][f])
  {
  }

  /** A document whose `_id` is already a string, or is absent or falsy, comes out unchanged. */
  lemma StringifyIdKeepsText(d: Document, render: Value -> string)
    requires IdField !in d || d[IdField].Text? || !Truthy(d[IdField])
    ensures StringifyId(d, render) == d
  {
  }

  /** Converting identifiers twice is the same as converting them once. */
  lemma StringifyIdsIdempotent(docs: seq<Document>, render: Value -> string)
    ensures StringifyIds(StringifyIds(docs, render), render) == StringifyIds(docs, render)
  {
    var once := StringifyIds(docs, render);
    forall k | 0 <= k < |once|
      ensures StringifyId(once[k], render) == once[k]
    {
      StringifyIdKeepsText(once[k], render);
    }
  }
}
