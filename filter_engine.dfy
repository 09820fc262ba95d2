/** The visible-product computation of the product-selection step: a free-text search on
    name and category combined with three categorical equality filters, and the distinct
    value lists the filter drop-downs offer. */
module FilterEngine {
  import opened Seqs
  import opened Text
  import opened Catalog

  /** The categorical filters; the empty string means "all". */
  datatype Filters = Filters(category: string, material: string, color: string)

  const NoFilters := Filters("", "", "")

  /** The three attributes a filter drop-down is built from. */
  datatype Attribute = Category | Material | Color

  function AttributeOf(p: Product, a: Attribute): string {
    match a
    case Category => p.category
    case Material => p.material
    case Color => p.color
  }

  /** The search term occurs, ignoring case, in the product's name or in its category. */
  predicate MatchesSearch(p: Product, term: string) {
    Includes(Lower(p.name), Lower(term)) || Includes(Lower(p.category), Lower(term))
  }

  /** An empty filter lets everything through; a set one demands exact equality. */
  predicate MatchesFilter(filter: string, value: string) {
    filter == "" || value == filter
  }

  /** The test each product of the selection grid must pass. */
  predicate Keep(p: Product, term: string, f: Filters) {
    && MatchesSearch(p, term)
    && MatchesFilter(f.category, p.category)
    && MatchesFilter(f.material, p.material)
    && MatchesFilter(f.color, p.color)
  }

  /** `filteredProducts`: the products that pass the search and every filter, in catalog order. */
  function FilteredProducts(products: seq<Product>, term: string, f: Filters): (r: seq<Product>)
    ensures IsSubsequence(r, products)
    ensures forall p :: p in r ==> p in products && Keep(p, term, f)
    ensures forall p :: p in products && p !in r ==>
              !MatchesSearch(p, term) || !MatchesFilter(f.category, p.category) ||
              !MatchesFilter(f.material, p.material) || !MatchesFilter(f.color, p.color)
    ensures forall p :: multiset(r)[p] == if Keep(p, term, f) then multiset(products)[p] else 0
  {
    FilterIsSubsequence(products, p => Keep(p, term, f));
    FilterMultiplicity(products, p => Keep(p, term, f));
    Filter(products, p => Keep(p, term, f))
  }

  /** With no search term and no filter set, every product is shown. */
  lemma NothingSetShowsAll(products: seq<Product>)
    ensures FilteredProducts(products, "", NoFilters) == products
  {
    forall i | 0 <= i < |products| ensures Keep(products[i], "", NoFilters) {
      EmptyIncluded(Lower(products[i].name));
    }
    FilterKeepsAll(products, p => Keep(p, "", NoFilters));
  }

  /** The search ignores case: two terms that lower-case alike select the same products. */
  lemma SearchIgnoresCase(products: seq<Product>, t1: string, t2: string, f: Filters)
    requires Lower(t1) == Lower(t2)
    ensures FilteredProducts(products, t1, f) == FilteredProducts(products, t2, f)
  {
    FilterCongruent(products, p => Keep(p, t1, f), p => Keep(p, t2, f));
  }

  /** The search ignores case on the product side too. */
  lemma SearchIgnoresProductCase(p: Product, q: Product, term: string)
    requires Lower(p.name) == Lower(q.name) && Lower(p.category) == Lower(q.category)
    ensures MatchesSearch(p, term) == MatchesSearch(q, term)
  {
  }

  /** Narrowing: setting a filter never adds products to the grid. */
  lemma SetFilterNarrows(products: seq<Product>, term: string, f: Filters, g: Filters)
    requires f.category == "" || g.category == f.category
    requires f.material == "" || g.material == f.material
    requires f.color == "" || g.color == f.color
    ensures forall p :: p in FilteredProducts(products, term, g) ==> p in FilteredProducts(products, term, f)
  {
  }

  /** The values of one attribute, product by product. */
  function Values(products: seq<Product>, a: Attribute): (r: seq<string>)
    ensures |r| == |products|
    ensures forall i :: 0 <= i < |products| ==> r[i] == AttributeOf(products[i], a)
  {
    if |products| == 0 then [] else [AttributeOf(products[0], a)] + Values(products[1..], a)
  }

  /** `[...new Set(products.map(p => p.<attribute>))]`: the drop-down options. */
  function Options(products: seq<Product>, a: Attribute): (r: seq<string>)
    ensures NoDup(r)
    ensures forall v :: v in r <==> exists p :: p in products && AttributeOf(p, a) == v
  {
    var vs := Values(products, a);
    assert forall v :: v in vs <==> exists p :: p in products && AttributeOf(p, a) == v by {
      forall v | v in vs ensures exists p :: p in products && AttributeOf(p, a) == v {
        var i :| 0 <= i < |vs| && vs[i] == v;
        assert products[i] in products;
      }
      forall p | p in products ensures AttributeOf(p, a) in vs {
        var i :| 0 <= i < |products| && products[i] == p;
        assert vs[i] == AttributeOf(p, a);
      }
    }
    Distinct(vs)
  }

  /** The options appear in the order in which their values first occur in the catalog. */
  lemma OptionsInFirstOccurrenceOrder(products: seq<Product>, a: Attribute)
    ensures forall i, j :: 0 <= i < j < |Options(products, a)| ==>
              IndexOf(Values(products, a), Options(products, a)[i]) <
              IndexOf(Values(products, a), Options(products, a)[j])
  {
    DistinctFirstOccurrenceOrder(Values(products, a));
  }

  /** A filter value is one a drop-down offers: "all" or one of the options. */
  predicate Offered(value: string, options: seq<string>) {
    value == "" || value in options
  }

  /** Every filter holds a value its drop-down offers for `products`. */
  predicate FiltersOffered(f: Filters, products: seq<Product>) {
    && Offered(f.category, Options(products, Category))
    && Offered(f.material, Options(products, Material))
    && Offered(f.color, Options(products, Color))
  }

  /** A set filter that a drop-down offered is met by at least one product. */
  lemma OfferedFilterMatchesSomeProduct(products: seq<Product>, a: Attribute, v: string)
    requires v in Options(products, a)
    ensures exists p :: p in products && AttributeOf(p, a) == v
  {
  }

  /** Filtering a two-element catalog, element by element. */
  lemma FilterPair(a: Product, b: Product, keep: Product -> bool)
    ensures Filter([a, b], keep) == (if keep(a) then [a] else []) + (if keep(b) then [b] else [])
  {
    assert [a, b][1..] == [b];
    assert [b][1..] == [];
  }

  /** "chair" is found in the lower-cased name "Ergonomic Chair". */
  lemma ChairMatchesChair()
    ensures MatchesSearch(SourceProducts()[1], "chair")
  {
    var name := SourceProducts()[1].name;
    assert Lower("chair") == "chair";
    assert name[10..15] == "Chair";
    LowerSlice(name, 10, 15);
    assert Lower("Chair") == "chair";
    IncludesIffOccurs(Lower(name), "chair");
    assert OccursAt(Lower(name), "chair", 10);
  }

  /** A text without "h" or "H" does not include "chair" once lower-cased. */
  lemma NoHMissesChair(text: string)
    requires 'h' !in text && 'H' !in text
    ensures !Includes(Lower(text), "chair")
  {
    LowerAvoids(text, 'h');
    IncludedCharsOccur(Lower(text), "chair");
    assert "chair"[1] == 'h';
  }

  /** A product whose name and category hold no "h" is not found by the search "chair". */
  lemma NoHProductMissesChair(p: Product)
    requires 'h' !in p.name && 'H' !in p.name && 'h' !in p.category && 'H' !in p.category
    ensures !MatchesSearch(p, "chair")
  {
    NoHMissesChair(p.name);
    NoHMissesChair(p.category);
    assert Lower("chair") == "chair";
  }

  /** Neither "Executive Desk" nor "Office Furniture" holds an "h". */
  lemma DeskMissesChair()
    ensures !MatchesSearch(SourceProducts()[0], "chair")
  {
    NoHProductMissesChair(SourceProducts()[0]);
  }

  /** Searching the component's catalog for "chair" shows only the chair. */
  lemma ChairSearchScenario()
    ensures FilteredProducts(SourceProducts(), "chair", NoFilters) == [SourceProducts()[1]]
  {
    ChairMatchesChair();
    DeskMissesChair();
    FilterPair(SourceProducts()[0], SourceProducts()[1], p => Keep(p, "chair", NoFilters));
  }

  /** Filtering the component's catalog by material "Wood" shows only the desk. */
  lemma WoodFilterScenario()
    ensures FilteredProducts(SourceProducts(), "", Filters("", "Wood", "")) == [SourceProducts()[0]]
  {
    var desk, chair := SourceProducts()[0], SourceProducts()[1];
    assert Lower("") == "";
    EmptyIncluded(Lower(desk.name));
    assert chair.material != "Wood";
    FilterPair(desk, chair, p => Keep(p, "", Filters("", "Wood", "")));
  }

  /** The drop-down options of the component's catalog. */
  lemma SourceOptionsScenario()
    ensures Options(SourceProducts(), Category) == ["Office Furniture"]
    ensures Options(SourceProducts(), Material) == ["Wood", "Mesh"]
    ensures Options(SourceProducts(), Color) == ["Brown", "Black"]
  {
    var ps := SourceProducts();
    assert Values(ps, Category) == [ps[0].category, ps[1].category];
    assert Values(ps, Material) == [ps[0].material, ps[1].material];
    assert Values(ps, Color) == [ps[0].color, ps[1].color];
    DistinctPair("Office Furniture", "Office Furniture");
    DistinctPair("Wood", "Mesh");
    DistinctPair("Brown", "Black");
  }

  lemma DistinctPair(x: string, y: string)
    ensures Distinct([x, y]) == if x == y then [x] else [x, y]
  {
    assert [x][..0] == [];
    assert Distinct([x]) == [x];
    assert [x, y][..1] == [x];
  }
}
