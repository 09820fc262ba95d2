/** The product record the wizard shows, selects and exports, and the catalog hard-coded
    in the component. */
module Catalog {
  import opened Seqs

  /** A product; `priceCents` stands for the decimal `price`, which is only carried along. */
  datatype Product = Product(
    id: int,
    name: string,
    category: string,
    image: string,
    material: string,
    color: string,
    priceCents: int)

  /** The ids of `ps`, in order. */
  function Ids(ps: seq<Product>): (r: seq<int>)
    ensures |r| == |ps|
    ensures forall i :: 0 <= i < |ps| ==> r[i] == ps[i].id
  {
    if |ps| == 0 then [] else [ps[0].id] + Ids(ps[1..])
  }

  /** An id is listed exactly when some product carries it. */
  lemma IdsMembership(ps: seq<Product>, id: int)
    ensures id in Ids(ps) <==> exists p :: p in ps && p.id == id
  {
    if id in Ids(ps) {
      var i :| 0 <= i < |ps| && Ids(ps)[i] == id;
      assert ps[i] in ps;
    }
  }

  /** No two products share an id. */
  ghost predicate UniqueIds(ps: seq<Product>) {
    NoDup(Ids(ps))
  }

  /** The two products the component declares. */
  function SourceProducts(): seq<Product> {
    [
      Product(1, "Executive Desk", "Office Furniture",
        "https://images.unsplash.com/photo-1524758631624-e2822e304c36?auto=format&fit=crop&w=300&q=80",
        "Wood", "Brown", 59999),
      Product(2, "Ergonomic Chair", "Office Furniture",
        "https://images.unsplash.com/photo-1505797149-35ebcb05a6fd?auto=format&fit=crop&w=300&q=80",
        "Mesh", "Black", 29999)
    ]
  }

  lemma SourceProductsHaveUniqueIds()
    ensures UniqueIds(SourceProducts())
  {
    assert Ids(SourceProducts()) == [1, 2];
  }
}
