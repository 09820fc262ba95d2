/** The `CreateCatalog` component: its state fields and the event handlers that update them. */
module Wizard {
  import opened Seqs
  import opened Catalog
  import opened FilterEngine
  import opened Selection
  import opened WizardSteps
  import opened PayloadAssembler

  datatype Option<T> = None | Some(value: T)

  class CreateCatalog {
    /** The read-only product list the wizard works on. */
    const products: seq<Product>
    var currentStep: nat
    var selectedProducts: seq<int>
    var searchTerm: string
    var filters: Filters

    /** The step is one of the three, no id is selected twice, every selected id is a
        catalog id, and every filter holds a value its drop-down offers. */
    ghost predicate Valid()
      reads this
    {
      && currentStep <= LastStep
      && NoDup(selectedProducts)
      && (forall id :: id in selectedProducts ==> id in Ids(products))
      && FiltersOffered(filters, products)
    }

    /** The initial state of the `useState` hooks. */
    constructor (catalog: seq<Product>)
      ensures Valid() && products == catalog
      ensures currentStep == 0 && selectedProducts == [] && searchTerm == "" && filters == NoFilters
    {
      products := catalog;
      currentStep := 0;
      selectedProducts := [];
      searchTerm := "";
      filters := NoFilters;
    }

    /** The product cards of the selection step. */
    function VisibleProducts(): (r: seq<Product>)
      reads this
      ensures IsSubsequence(r, products)
      ensures forall p :: p in r <==> p in products && Keep(p, searchTerm, filters)
    {
      FilteredProducts(products, searchTerm, filters)
    }

    /** The rows of the review table of the details step. */
    function ReviewProducts(): (r: seq<Product>)
      reads this
      ensures IsSubsequence(r, products)
      ensures forall p :: p in r <==> p in products && p.id in selectedProducts
    {
      SelectedProducts(products, selectedProducts)
    }

    /** A click on a product card, which passes that product's id. */
    method SelectProduct(id: int)
      requires Valid() && id in Ids(products)
      modifies this`selectedProducts
      ensures Valid()
      ensures selectedProducts == Toggle(old(selectedProducts), id)
    {
      ToggleKeepsNoDup(selectedProducts, id);
      selectedProducts := Toggle(selectedProducts, id);
    }

    /** The delete button of a review row. */
    method RemoveProduct(id: int)
      requires Valid()
      modifies this`selectedProducts
      ensures Valid()
      ensures selectedProducts == Remove(old(selectedProducts), id)
    {
      RemoveKeepsNoDup(selectedProducts, id);
      selectedProducts := Remove(selectedProducts, id);
    }

    /** Typing in the search box. */
    method SetSearchTerm(term: string)
      requires Valid()
      modifies this`searchTerm
      ensures Valid() && searchTerm == term
    {
      searchTerm := term;
    }

    /** Choosing an entry of the category drop-down; the other filters keep their values. */
    method SetCategory(value: string)
      requires Valid() && Offered(value, Options(products, Category))
      modifies this`filters
      ensures Valid()
      ensures filters.category == value
      ensures filters.material == old(filters.material) && filters.color == old(filters.color)
    {
      filters := filters.(category := value);
    }

    /** Choosing an entry of the material drop-down; the other filters keep their values. */
    method SetMaterial(value: string)
      requires Valid() && Offered(value, Options(products, Material))
      modifies this`filters
      ensures Valid()
      ensures filters.material == value
      ensures filters.category == old(filters.category) && filters.color == old(filters.color)
    {
      filters := filters.(material := value);
    }

    /** Choosing an entry of the color drop-down; the other filters keep their values. */
    method SetColor(value: string)
      requires Valid() && Offered(value, Options(products, Color))
      modifies this`filters
      ensures Valid()
      ensures filters.color == value
      ensures filters.category == old(filters.category) && filters.material == old(filters.material)
    {
      filters := filters.(color := value);
    }

    /** The Clear Filters button. */
    method ClearFilters()
      requires Valid()
      modifies this`filters
      ensures Valid() && filters == NoFilters
    {
      filters := NoFilters;
    }

    /** The Previous button. */
    method Previous()
      requires Valid()
      modifies this`currentStep
      ensures Valid()
      ensures currentStep == Press(old(currentStep), PreviousButton)
      ensures old(currentStep) == 0 ==> currentStep == 0
      ensures old(currentStep) > 0 ==> currentStep == old(currentStep) - 1
    {
      currentStep := PreviousStep(currentStep);
    }

    /** `handleGenerateCatalog`, with the settings inputs passed in; the state is not changed. */
    method GenerateCatalog(settings: LinkSettings) returns (payload: CatalogPayload)
      ensures payload == Assemble(products, selectedProducts, settings)
      ensures payload.settings == settings
      ensures forall p :: p in payload.products <==> p in products && p.id in selectedProducts
    {
      payload := CatalogPayload(SelectedProducts(products, selectedProducts), settings);
    }

    /** The Next button: on the last step it generates the catalog and stays, elsewhere it moves on. */
    method Next(settings: LinkSettings) returns (generated: Option<CatalogPayload>)
      requires Valid()
      modifies this`currentStep
      ensures Valid()
      ensures currentStep == Press(old(currentStep), NextButton)
      ensures old(currentStep) == LastStep ==>
                currentStep == LastStep && generated == Some(Assemble(products, selectedProducts, settings))
      ensures old(currentStep) < LastStep ==> currentStep == old(currentStep) + 1 && generated == None
    {
      if currentStep == LastStep {
        var payload := GenerateCatalog(settings);
        generated := Some(payload);
      } else {
        currentStep := NextStep(currentStep);
        generated := None;
      }
    }
  }

  /** A session: select a product, toggle another on and off, walk the steps, generate. */
  method SelectAndGenerateSession(catalog: seq<Product>, settings: LinkSettings)
    requires |catalog| >= 2 && catalog[0].id != catalog[1].id
  {
    var w := new CreateCatalog(catalog);
    var first, second := catalog[0].id, catalog[1].id;
    assert Ids(catalog)[0] == first && Ids(catalog)[1] == second;
    assert LastStep == 2;
    w.SelectProduct(first);
    w.SelectProduct(second);
    w.SelectProduct(second);
    ToggleTwiceRestores([first], second);
    assert w.selectedProducts == [first];
    var g := w.Next(settings);
    assert g == None && w.currentStep == 1;
    w.Previous();
    g := w.Next(settings);
    g := w.Next(settings);
    assert g == None && w.currentStep == LastStep;
    g := w.Next(settings);
    assert g.Some? && w.currentStep == LastStep;
    assert catalog[0] in g.value.products && catalog[1] !in g.value.products;
  }
}
