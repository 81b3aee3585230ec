/** The values that requests, filters, documents and results are made of. */
module Values {

  /** A Python value as JSON or a driver delivers it. */
  datatype Val = Null | Bool(b: bool) | Num(n: real) | Str(s: string) | List(items: seq<Val>) | Dict(entries: seq<Entry>)

  /** A dict is the list of its entries in insertion order. */
  datatype Entry = Entry(key: string, val: Val)

  /** In a Python dict each key occurs once. */
  predicate DistinctKeys(doc: seq<Entry>) { forall i, j :: 0 <= i < j < |doc| ==> doc[i].key != doc[j].key }

  predicate Holds(doc: seq<Entry>, key: string) { exists i :: 0 <= i < |doc| && doc[i].key == key }

  /** `doc.get(key)` */
  function Lookup(doc: seq<Entry>, key: string): Val {
    if doc == [] then Null else if doc[0].key == key then doc[0].val else Lookup(doc[1..], key)
  }

  lemma {:induction false} LookupAt(doc: seq<Entry>, i: nat)
    requires DistinctKeys(doc) && i < |doc|
    ensures Lookup(doc, doc[i].key) == doc[i].val
  {
    if i > 0 {
      LookupAt(doc[1..], i - 1);
    }
  }

  /** Python's truth value. */
  predicate Truthy(v: Val) {
    match v
    case Null => false
    case Bool(b) => b
    case Num(n) => n != 0.0
    case Str(s) => s != ""
    case List(items) => items != []
    case Dict(entries) => entries != []
  }
}
