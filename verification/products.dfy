/** The product record the browser pages work with, and the `find`-by-id lookup both
    pages use on their cached product list. */
module Products {
  import opened Wrappers
  import opened Seqs

  /** A product as the browser sees it. `category`, `subcategory` and `variant` are read by
      the POS page but are optional: `None` is a field the server did not send. */
  datatype Product = Product(
    id: int,
    name: string,
    price: int,
    category: Option<string>,
    subcategory: Option<string>,
    variant: Option<string>)

  /** JavaScript truthiness of an optional string field: missing and "" are both falsy. */
  predicate Truthy(s: Option<string>) {
    s.Some? && s.value != ""
  }

  /** The ids of a product list, position by position. */
  function Ids(catalog: seq<Product>): (r: seq<int>)
    ensures |r| == |catalog|
    ensures forall i :: 0 <= i < |catalog| ==> r[i] == catalog[i].id
  {
    seq(|catalog|, i requires 0 <= i < |catalog| => catalog[i].id)
  }

  /** `catalog.find(p => p.id === id)`: the first product carrying `id`, if any. */
  function Find(catalog: seq<Product>, id: int): (r: Option<Product>)
    ensures r.None? <==> id !in Ids(catalog)
    ensures r.Some? ==> r.value.id == id && r.value in catalog
  {
    if |catalog| == 0 then None
    else if catalog[0].id == id then Some(catalog[0])
    else
      assert Ids(catalog) == [catalog[0].id] + Ids(catalog[1..]);
      Find(catalog[1..], id)
  }

  /** `Find` stops at the first product carrying the id: every earlier one has another id. */
  lemma {:induction false} FindFirst(catalog: seq<Product>, id: int)
    requires id in Ids(catalog)
    ensures Find(catalog, id) == Some(catalog[FirstIndex(Ids(catalog), id)])
  {
    if catalog[0].id != id {
      IdsTail(catalog);
      FirstIndexTail(Ids(catalog), id);
      FindFirst(catalog[1..], id);
    }
  }

  lemma IdsTail(catalog: seq<Product>)
    requires |catalog| > 0
    ensures Ids(catalog[1..]) == Ids(catalog)[1..]
  {
  }

  /** Product ids are unique (they are the database's primary key). */
  predicate UniqueIds(catalog: seq<Product>) {
    Distinct(Ids(catalog))
  }

  /** With unique ids, `Find` returns the one product that carries the id. */
  lemma FindUnique(catalog: seq<Product>, i: nat)
    requires UniqueIds(catalog)
    requires i < |catalog|
    ensures Find(catalog, catalog[i].id) == Some(catalog[i])
  {
    var id := catalog[i].id;
    assert Ids(catalog)[i] == id;
    FindFirst(catalog, id);
    var k := FirstIndex(Ids(catalog), id);
    assert Ids(catalog)[k] == Ids(catalog)[i];
  }
}
