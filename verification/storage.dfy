/** The storage collaborator `get_documents`, whose implementation is not part of this model.
    ASSUMPTION: it returns, in collection order, exactly the documents of the named collection
    that hold every field of the filter with exactly the filter's value (plain equality;
    MongoDB's array-element matching is not modelled). */
module Storage {
  import opened Seqs
  import opened Documents

  /** The database: collection name to its documents, in iteration order. */
  type Database = map<string, seq<Document>>

  /** An equality filter: field name to required value, all conditions ANDed. */
  type EqFilter = map<string, Value>

  /** Collection names are the lower-cased schema class names. */
  const ItemCollection: string := "item"
  const RentalCollection: string := "rental"

  /** The documents of a collection; a collection that does not exist is empty. */
  function Collection(db: Database, name: string): (r: seq<Document>)
    ensures name !in db ==> r == []
  {
    if name in db then db[name] else []
  }

  /** `d` satisfies every condition of `f`. */
  predicate Matches(f: EqFilter, d: Document) {
    forall k :: k in f ==> k in d && d[k] == f[k]
  }

  /** `Matches(f, ·)` as a predicate value. */
  function Matching(f: EqFilter): (p: Document -> bool)
    ensures forall d :: p(d) <==> Matches(f, d)
  {
    d => Matches(f, d)
  }

  /** `get_documents(name, f)` under the assumption above. */
  function Find(db: Database, name: string, f: EqFilter): (r: seq<Document>)
    ensures forall d :: d in r <==> d in Collection(db, name) && Matches(f, d)
    ensures forall d :: multiset(r)[d] == if Matches(f, d) then multiset(Collection(db, name))[d] else 0
    ensures IsSubsequence(r, Collection(db, name))
    ensures |r| <= |Collection(db, name)|
  {
    FilterCount(Collection(db, name), Matching(f));
    Filter(Collection(db, name), Matching(f))
  }

  /** An empty filter matches every document: the whole collection comes back, in order. */
  lemma EmptyFilterFindsAll(db: Database, name: string)
    ensures Find(db, name, map[]) == Collection(db, name)
  {
    FilterKeepsAll(Collection(db, name), Matching(map[]));
  }
}
