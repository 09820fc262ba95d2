/** The catalog payload built when the last step's Next button is pressed: the selected
    products, in catalog order, paired with the link-sharing settings. */
module PayloadAssembler {
  import opened Seqs
  import opened Catalog

  /** The values of the three settings inputs; an empty field reads as "". */
  datatype LinkSettings = LinkSettings(requireEmailVerification: bool, expiryDate: string, password: string)

  datatype CatalogPayload = CatalogPayload(products: seq<Product>, settings: LinkSettings)

  /** `products.filter(p => selectedProducts.includes(p.id))`. */
  function SelectedProducts(catalog: seq<Product>, selected: seq<int>): (r: seq<Product>)
    ensures IsSubsequence(r, catalog)
    ensures forall p :: p in r <==> p in catalog && p.id in selected
    ensures forall p :: multiset(r)[p] == if p.id in selected then multiset(catalog)[p] else 0
  {
    FilterIsSubsequence(catalog, (p: Product) => p.id in selected);
    FilterMultiplicity(catalog, (p: Product) => p.id in selected);
    Filter(catalog, (p: Product) => p.id in selected)
  }

  /** The `catalogData` record of `handleGenerateCatalog`. */
  function Assemble(catalog: seq<Product>, selected: seq<int>, settings: LinkSettings): (r: CatalogPayload)
    ensures r.settings == settings
    ensures IsSubsequence(r.products, catalog)
    ensures forall p :: p in r.products <==> p in catalog && p.id in selected
  {
    CatalogPayload(SelectedProducts(catalog, selected), settings)
  }

  /** Nothing selected gives a payload with no products; no error is raised. */
  lemma EmptySelectionGivesNoProducts(catalog: seq<Product>, settings: LinkSettings)
    ensures Assemble(catalog, [], settings).products == []
  {
    FilterKeepsNone(catalog, (p: Product) => p.id in []);
  }

  /** A subsequence of a catalog with unique ids has unique ids. */
  lemma SubsequenceUniqueIds(a: seq<Product>, b: seq<Product>)
    requires IsSubsequence(a, b) && UniqueIds(b)
    ensures UniqueIds(a)
  {
    var idx :| Embeds(a, b, idx);
    var ia, ib := Ids(a), Ids(b);
    forall i, j | 0 <= i < j < |ia| ensures ia[i] != ia[j] {
      assert ia[i] == ib[idx[i]] && ia[j] == ib[idx[j]];
      assert idx[i] < idx[j];
    }
  }

  /** With unique catalog ids, the payload holds each selected catalog id exactly once, and no other id. */
  lemma PayloadIdsMatchSelection(catalog: seq<Product>, selected: seq<int>, settings: LinkSettings)
    requires UniqueIds(catalog)
    ensures UniqueIds(Assemble(catalog, selected, settings).products)
    ensures forall id :: id in Ids(Assemble(catalog, selected, settings).products) <==>
              id in selected && id in Ids(catalog)
  {
    var r := Assemble(catalog, selected, settings).products;
    SubsequenceUniqueIds(r, catalog);
    forall id ensures id in Ids(r) <==> id in selected && id in Ids(catalog) {
      IdsMembership(r, id);
      IdsMembership(catalog, id);
    }
  }

  /** A duplicate-free selection of catalog ids yields one product per selected id. */
  lemma PayloadSizeMatchesSelection(catalog: seq<Product>, selected: seq<int>, settings: LinkSettings)
    requires UniqueIds(catalog) && NoDup(selected)
    requires forall id :: id in selected ==> id in Ids(catalog)
    ensures |Assemble(catalog, selected, settings).products| == |selected|
  {
    var r := Assemble(catalog, selected, settings).products;
    PayloadIdsMatchSelection(catalog, selected, settings);
    forall id ensures id in Ids(r) <==> id in selected {
    }
    SameElementsSameLength(Ids(r), selected);
  }
}
