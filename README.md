# Catalog-creation wizard, modelled in Dafny

This project models the catalog-creation wizard of the `CreateCatalog` React component. With the wizard, a user:

- narrows a product grid with a case-insensitive search and three drop-down filters (category, material, color);
- toggles products in and out of a selection;
- reviews the selection and deletes rows from it;
- walks three steps with Previous and Next;
- on the last step, generates a catalog payload: the selected products in catalog order, paired with the link-sharing settings.

Layout, one module per concern:

- `seqs.dfy` (`Seqs`): `Filter` models JavaScript's `Array.prototype.filter` and `Distinct` models `[...new Set(xs)]`. The module also defines the properties their contracts use: subsequence as an increasing index embedding, no duplicates, and first index.
- `text.dfy` (`Text`): `toLowerCase` as ASCII lowering, and `String.prototype.includes`. The module proves `includes` equivalent to "occurs at some position".
- `catalog.dfy` (`Catalog`): the product record and the two products hard-coded in the component.
- `filter_engine.dfy` (`FilterEngine`): the grid predicate `filteredProducts` and the drop-down option lists.
- `selection.dfy` (`Selection`): toggle and delete on the list of selected ids.
- `steps.dfy` (`WizardSteps`): the step list and the Previous/Next transitions.
- `payload.dfy` (`PayloadAssembler`): the `catalogData` record.
- `wizard.dfy` (`Wizard`): class `CreateCatalog`. It holds the component's `useState` fields (`currentStep`, `selectedProducts`, `searchTerm`, `filters`) and one method per event handler. Each method is tied to the pure function its setter applies.

Three behaviours of the code are kept as written:

- There is no empty-selection validation error. Generating with nothing selected yields a payload with no products (`EmptySelectionGivesNoProducts`).
- Unset settings are the empty string, the `value` of an empty input, not null.
- The option lists keep the first-occurrence order of the JavaScript `Set`; they are not unordered.

## Model

| member | source | states |
|---|---|---|
| `FilterEngine.FilteredProducts` | src/components/catalog/CreateCatalog.tsx:41-50 | The result is an order-preserving subsequence of the products. Every kept product matches the search in name or category and passes each non-empty filter by exact equality. Every dropped product fails at least one of these tests. Kept products keep their multiplicity. |
| `FilterEngine.NothingSetShowsAll` | src/components/catalog/CreateCatalog.tsx:43-47 | With an empty search term and all three filters empty, the whole product list is shown, unchanged. |
| `FilterEngine.SearchIgnoresCase` | src/components/catalog/CreateCatalog.tsx:43-44 | Two search terms with the same lower-case form show exactly the same products. |
| `FilterEngine.SearchIgnoresProductCase` | src/components/catalog/CreateCatalog.tsx:43-44 | Products whose names and categories agree after lower-casing match the same search terms. |
| `FilterEngine.SetFilterNarrows` | src/components/catalog/CreateCatalog.tsx:45-47 | Setting filters that were empty, keeping the others, never adds a product to the grid. |
| `FilterEngine.Options` | src/components/catalog/CreateCatalog.tsx:37-39 | Each option list has no duplicates. A value is listed exactly when some product has it for that attribute. |
| `FilterEngine.OptionsInFirstOccurrenceOrder` | src/components/catalog/CreateCatalog.tsx:37-39 | The options appear in the order in which their values first occur in the product list. |
| `Seqs.DistinctFirstOccurrenceOrder` | src/components/catalog/CreateCatalog.tsx:37-39 | The deduplication of a `Set` spread lists the values in order of first occurrence. |
| `FilterEngine.OfferedFilterMatchesSomeProduct` | src/components/catalog/CreateCatalog.tsx:89-91 | A value offered in a drop-down is the attribute of at least one product, so a set filter never names a missing value. |
| `FilterEngine.ChairSearchScenario` | src/components/catalog/CreateCatalog.tsx:16-50 | On the component's two products, the search "chair" shows only the "Ergonomic Chair". |
| `FilterEngine.WoodFilterScenario` | src/components/catalog/CreateCatalog.tsx:16-50 | On the component's two products, the material filter "Wood" shows only the "Executive Desk". |
| `FilterEngine.SourceOptionsScenario` | src/components/catalog/CreateCatalog.tsx:16-39 | The component's drop-downs offer ["Office Furniture"], ["Wood", "Mesh"] and ["Brown", "Black"]. |
| `Catalog.SourceProductsHaveUniqueIds` | src/components/catalog/CreateCatalog.tsx:16-35 | The hard-coded products have distinct ids. |
| `Text.Lower` | src/components/catalog/CreateCatalog.tsx:43-44 | Lower-casing keeps the length, leaves no ASCII capital, maps each capital to its small letter and keeps every other character. |
| `Text.LowerIdempotent` | src/components/catalog/CreateCatalog.tsx:43-44 | Lower-casing an already lower-cased string changes nothing. |
| `Text.IncludesIffOccurs` | src/components/catalog/CreateCatalog.tsx:43-44 | `includes` holds exactly when the needle occurs at some position of the text. The empty needle occurs everywhere. |
| `Selection.Toggle` | src/components/catalog/CreateCatalog.tsx:53-59 | Toggling an absent id appends it at the end. Toggling a present id removes every copy and keeps all other ids with their multiplicities, in order. Afterwards the id is selected exactly when it was not before. |
| `Selection.Remove` | src/components/catalog/CreateCatalog.tsx:61-63 | After removal no copy of the id is left. Every other id keeps its multiplicity, and the result is an order-preserving subsequence of the list. |
| `Selection.RemoveAbsent` | src/components/catalog/CreateCatalog.tsx:61-63 | Removing an id that is not selected changes nothing. |
| `Selection.RemoveIdempotent` | src/components/catalog/CreateCatalog.tsx:61-63 | Removing the same id twice is the same as removing it once. |
| `Selection.RemoveKeepsNoDup` | src/components/catalog/CreateCatalog.tsx:61-63 | Removal keeps a duplicate-free selection duplicate-free. |
| `Selection.ToggleKeepsNoDup` | src/components/catalog/CreateCatalog.tsx:53-59 | If the selection had no duplicates before a toggle, it has none after. |
| `Selection.ToggleTwiceRestores` | src/components/catalog/CreateCatalog.tsx:53-59 | Toggling an absent id twice restores the original list exactly. |
| `Selection.ToggleTwiceRestoresSet` | src/components/catalog/CreateCatalog.tsx:53-59 | Toggling any id twice restores the set of selected ids. |
| `Selection.ToggleStaysWithin` | src/components/catalog/CreateCatalog.tsx:53-59 | Toggling a known id keeps the selection within the known ids. |
| `Selection.ToggleToggleRemoveScenario` | src/components/catalog/CreateCatalog.tsx:53-63 | Selecting 1, then 2, then deleting 1 leaves exactly [2]. |
| `WizardSteps.PreviousStep` | src/components/catalog/CreateCatalog.tsx:361 | Previous goes back one step and stays at 0 on the first step. |
| `WizardSteps.NextStep` | src/components/catalog/CreateCatalog.tsx:372 | The Next step update goes forward one step below the last step and never passes the last step. |
| `WizardSteps.Press` | src/components/catalog/CreateCatalog.tsx:359-373 | A button press from a valid step gives a valid step. Next on the last step, which generates, leaves the step unchanged. |
| `WizardSteps.RunStaysInRange` | src/components/catalog/CreateCatalog.tsx:359-373 | No sequence of Previous/Next presses starting from a step in 0..2 leaves 0..2. |
| `WizardSteps.PreviousUndoesNext` | src/components/catalog/CreateCatalog.tsx:361-372 | Below the last step, Previous after Next returns to the starting step. |
| `WizardSteps.NextUndoesPrevious` | src/components/catalog/CreateCatalog.tsx:361-372 | Above the first step, Next after Previous returns to the starting step. |
| `WizardSteps.PressMovesByOne` | src/components/catalog/CreateCatalog.tsx:359-373 | A press moves by at most one step. It leaves the step unchanged exactly for Previous at step 0 and for Next at the last step. |
| `WizardSteps.ThreeNextsScenario` | src/components/catalog/CreateCatalog.tsx:369-372 | From step 0, two presses of Next reach the settings step, where the next Next generates. |
| `PayloadAssembler.SelectedProducts` | src/components/catalog/CreateCatalog.tsx:67 | The payload products are an order-preserving subsequence of the catalog. They are exactly the catalog products whose id is selected, each with its catalog multiplicity. |
| `PayloadAssembler.Assemble` | src/components/catalog/CreateCatalog.tsx:65-73 | The payload carries the settings unchanged, and exactly the selected catalog products in catalog order. |
| `PayloadAssembler.EmptySelectionGivesNoProducts` | src/components/catalog/CreateCatalog.tsx:66-67 | With nothing selected, the payload has an empty product list; there is no error path. |
| `PayloadAssembler.PayloadIdsMatchSelection` | src/components/catalog/CreateCatalog.tsx:66-67 | If catalog ids are unique, the payload's ids are unique, and they are exactly the selected ids that exist in the catalog. |
| `PayloadAssembler.PayloadSizeMatchesSelection` | src/components/catalog/CreateCatalog.tsx:66-67 | A duplicate-free selection of catalog ids gives exactly one payload product per selected id. |
| `Wizard.CreateCatalog.constructor` | src/components/catalog/CreateCatalog.tsx:7-14 | The initial state is step 0, no selection, an empty search term and three empty filters, and it satisfies the invariant. |
| `Wizard.CreateCatalog.VisibleProducts` | src/components/catalog/CreateCatalog.tsx:41-51 | The product cards are the catalog products that pass the current search and filters, in catalog order. |
| `Wizard.CreateCatalog.ReviewProducts` | src/components/catalog/CreateCatalog.tsx:212-213 | The review rows are the catalog products whose id is selected, in catalog order. |
| `Wizard.CreateCatalog.SelectProduct` | src/components/catalog/CreateCatalog.tsx:53-59 | A card click toggles that id and changes no other field. Afterwards the selection has no duplicates and holds only catalog ids. |
| `Wizard.CreateCatalog.RemoveProduct` | src/components/catalog/CreateCatalog.tsx:61-63 | The delete button removes every copy of the id and changes no other field. |
| `Wizard.CreateCatalog.SetSearchTerm` | src/components/catalog/CreateCatalog.tsx:136 | Typing replaces the search term and changes nothing else. |
| `Wizard.CreateCatalog.SetCategory` | src/components/catalog/CreateCatalog.tsx:86 | Choosing a category sets that filter, keeps material and color, and keeps every filter among the offered values. |
| `Wizard.CreateCatalog.SetMaterial` | src/components/catalog/CreateCatalog.tsx:96 | Choosing a material sets that filter and keeps category and color. |
| `Wizard.CreateCatalog.SetColor` | src/components/catalog/CreateCatalog.tsx:106 | Choosing a color sets that filter and keeps category and material. |
| `Wizard.CreateCatalog.ClearFilters` | src/components/catalog/CreateCatalog.tsx:116 | Clear Filters sets all three filters to the empty string. |
| `Wizard.CreateCatalog.Previous` | src/components/catalog/CreateCatalog.tsx:361 | The Previous button moves to max(0, step - 1), keeps the step in range and changes nothing else. |
| `Wizard.CreateCatalog.GenerateCatalog` | src/components/catalog/CreateCatalog.tsx:65-73 | Generation returns the payload built from the current selection and the given settings, and changes no state. |
| `Wizard.CreateCatalog.Next` | src/components/catalog/CreateCatalog.tsx:368-373 | On the last step, Next leaves the step unchanged and returns the generated payload. Below it, Next moves to step + 1 and generates nothing. |

## Left out

- Rendering is not modelled: the JSX, the CSS class computation and the step indicator (lines 80-122, 124-316, 318-356). It is presentation only.
- The filter-panel visibility toggle (line 142) is a direct DOM class change with no state.
- The settings are not read from the DOM. The three `document.getElementById` reads (lines 69-71) become the `LinkSettings` parameter of `Next` and `GenerateCatalog`. The `undefined` that `?.` gives for a missing element is not modelled, because the inputs are rendered on the step where generation happens.
- `console.log` and `alert` (lines 76-77) are I/O. The payload is returned instead.
- The float `price` becomes integer cents (`priceCents`). It is only carried along, never computed.
- Image URLs are opaque strings.
- The product-detail inputs of the review step (lines 234-252) use `defaultValue` and are never written back to state, so there is nothing to model.
- `toLowerCase` is ASCII lowering. Unicode case mappings beyond A-Z are not modelled.
- `useMemo` caching (lines 41, 51) is an optimisation with no semantic effect.
- React's batching of state updates is not modelled. Each handler is one atomic update, and the `prev` a setter receives is the current field.
- There is no serialization of the payload in the code, so there is no round-trip to state.
- `src/components/dashboard/Dashboard.tsx` renders a fixed list; its search box is not wired to state.
- `src/components/common/Navbar.tsx` consists of authentication-context and router calls.
- Wizard.CreateCatalog.SelectProduct: requires the id to be a catalog id. The handler accepts any number, but its only caller, the product card (line 160), passes the id of a displayed product. `Selection.Toggle` itself takes any id.
- Wizard.CreateCatalog.SetCategory: requires an offered value, the empty string or a category option. The value comes from a `<select>` whose only options are those (lines 89-91).
- Wizard.CreateCatalog.SetMaterial: requires an offered value, because its `<select>` offers only "" and the material options (lines 99-101).
- Wizard.CreateCatalog.SetColor: requires an offered value, because its `<select>` offers only "" and the color options (lines 109-111).
