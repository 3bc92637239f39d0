/** The console listing page: five state cells updated by the sidebar, the
    search box, the card toggles and the bottom bar. */
module Console {
  import opened Seqs
  import opened ConsoleCatalog
  import opened Filter
  import opened Selection
  import ComparisonBar
  import opened Options

  /** The props the page hands to the bar: each selected record's id and name,
      in the same order, so distinct records give the bar distinct ids. */
  function BarItems(models: seq<ConsoleModel>): (items: seq<ComparisonBar.BarItem>)
    ensures |items| == |models|
    ensures forall k :: 0 <= k < |models| ==> items[k].id == models[k].id && items[k].name == models[k].name
    ensures Map(items, (i: ComparisonBar.BarItem) => i.id) == Ids(models)
  {
    Map(models, (m: ConsoleModel) => ComparisonBar.BarItem(m.id, m.name))
  }

  class ConsolePage {
    /** The inline catalog `allModels`, fixed for the page's lifetime. */
    const catalog: seq<ConsoleModel>
    var search: string
    var selectedCompanies: seq<string>
    var selectedTypes: seq<ModelType>
    var minContext: nat
    var comparisonIds: seq<nat>

    /** The toggle handlers never let a list hold an item twice, and the
        threshold is always a position of the slider. */
    ghost predicate Valid()
      reads this
    {
      NoDup(Ids(catalog)) &&
      NoDup(selectedCompanies) && NoDup(selectedTypes) && NoDup(comparisonIds) &&
      IsSliderValue(minContext)
    }

    function Criteria(): Criteria
      reads this
    {
      Filter.Criteria(search, selectedCompanies, selectedTypes, minContext)
    }

    /** The cards the grid shows. */
    function Shown(): seq<ConsoleModel>
      reads this
    {
      FilteredModels(catalog, Criteria())
    }

    /** The records handed to the bottom bar. */
    function Selected(): seq<ConsoleModel>
      reads this
    {
      SelectedModels(catalog, comparisonIds)
    }

    /** A card's compare checkbox is ticked when its id is selected. */
    predicate IsComparing(id: nat)
      reads this
    {
      id in comparisonIds
    }

    function Bar(): ComparisonBar.BarView
      reads this
    {
      ComparisonBar.Render(BarItems(Selected()))
    }

    constructor ()
      ensures Valid()
      ensures catalog == AllModels
      ensures Criteria() == DefaultCriteria && comparisonIds == []
    {
      catalog := AllModels;
      assert NoDup(Ids(AllModels)) by { AllModelsIds(); }
      search := "";
      selectedCompanies := [];
      selectedTypes := [];
      minContext := 0;
      comparisonIds := [];
    }

    /** Right after construction every record is shown and the bar is hidden. */
    lemma InitialView()
      requires Criteria() == DefaultCriteria && comparisonIds == []
      ensures Shown() == catalog && Bar().Hidden?
    {
      DefaultCriteriaShowsAll(catalog);
      NothingSelected(catalog);
    }

    /** The search box's `onChange`. */
    method SetSearch(text: string)
      requires Valid()
      modifies this
      ensures Valid()
      ensures Criteria() == old(Criteria()).(search := text) && comparisonIds == old(comparisonIds)
    {
      search := text;
    }

    /** The company checkbox handler `toggleCompany`. */
    method ToggleCompany(company: string)
      requires Valid()
      modifies this
      ensures Valid()
      ensures Criteria() == old(Criteria()).(companies := Toggle(old(selectedCompanies), company))
      ensures comparisonIds == old(comparisonIds)
    {
      ToggleKeepsNoDup(selectedCompanies, company);
      selectedCompanies := Toggle(selectedCompanies, company);
    }

    /** The type checkbox handler `toggleType`. */
    method ToggleType(t: ModelType)
      requires Valid()
      modifies this
      ensures Valid()
      ensures Criteria() == old(Criteria()).(types := Toggle(old(selectedTypes), t))
      ensures comparisonIds == old(comparisonIds)
    {
      ToggleKeepsNoDup(selectedTypes, t);
      selectedTypes := Toggle(selectedTypes, t);
    }

    /** The slider's `onContextChange`, which reports one of the slider's positions. */
    method SetMinContext(v: nat)
      requires Valid() && IsSliderValue(v)
      modifies this
      ensures Valid()
      ensures Criteria() == old(Criteria()).(minContext := v) && comparisonIds == old(comparisonIds)
    {
      minContext := v;
    }

    /** `toggleCompare`: a card's compare checkbox, and the bar's `onRemove`. */
    method ToggleCompare(id: nat)
      requires Valid()
      modifies this
      ensures Valid()
      ensures comparisonIds == Toggle(old(comparisonIds), id) && Criteria() == old(Criteria())
      ensures IsComparing(id) <==> !old(IsComparing(id))
    {
      ToggleKeepsNoDup(comparisonIds, id);
      comparisonIds := Toggle(comparisonIds, id);
    }

    /** The Reset Filters button, which the grid renders only when no card
        matches: every filter back to its initial value; the comparison
        selection is kept. */
    method ResetFilters()
      requires Valid() && Shown() == []
      modifies this
      ensures Valid()
      ensures Criteria() == DefaultCriteria && comparisonIds == old(comparisonIds)
      ensures Shown() == catalog
    {
      selectedCompanies := [];
      selectedTypes := [];
      search := "";
      minContext := 0;
      DefaultCriteriaShowsAll(catalog);
    }

    /** The bar's `onClear`: the selection is emptied and the bar disappears. */
    method ClearComparison()
      requires Valid()
      modifies this
      ensures Valid()
      ensures comparisonIds == [] && Criteria() == old(Criteria())
      ensures Bar().Hidden?
    {
      comparisonIds := [];
    }

    /** The wiring of the bar's callbacks: `onRemove` is `toggleCompare`, `onClear` empties the selection. */
    method HandleBarCallback(cb: ComparisonBar.Callback)
      requires Valid()
      modifies this
      ensures Valid() && Criteria() == old(Criteria())
      ensures cb.OnRemove? ==> comparisonIds == Toggle(old(comparisonIds), cb.id)
      ensures cb.OnClear? ==> comparisonIds == []
    {
      match cb
      case OnRemove(id) => ToggleCompare(id);
      case OnClear => ClearComparison();
    }
  }

  /** The bar's records come from the catalog in catalog order with distinct ids,
      and the bar shows as many chips as distinct catalog ids are selected. */
  lemma BarReflectsSelection(catalog: seq<ConsoleModel>, ids: seq<nat>)
    requires NoDup(Ids(catalog))
    ensures var items := BarItems(SelectedModels(catalog, ids));
      NoDup(Map(items, (i: ComparisonBar.BarItem) => i.id)) &&
      |items| == |Elems(ids) * Elems(Ids(catalog))|
  {
    var sel := SelectedModels(catalog, ids);
    SelectedIdsDistinct(catalog, ids);
    SelectedCount(catalog, ids);
    assert Map(BarItems(sel), (i: ComparisonBar.BarItem) => i.id) == Ids(sel);
  }

  /** A chip's remove button removes that record from the bar and nothing else. */
  lemma ChipRemovalDeselects(catalog: seq<ConsoleModel>, ids: seq<nat>, k: nat)
    requires NoDup(Ids(catalog))
    requires k < |SelectedModels(catalog, ids)|
    ensures var v := ComparisonBar.Render(BarItems(SelectedModels(catalog, ids)));
      var gone := SelectedModels(catalog, ids)[k];
      ComparisonBar.Fire(v, ComparisonBar.RemoveClicked(k)) == Some(ComparisonBar.OnRemove(gone.id)) &&
      forall m :: m in SelectedModels(catalog, Toggle(ids, gone.id)) <==>
        m in SelectedModels(catalog, ids) && m != gone
  {
    var sel := SelectedModels(catalog, ids);
    var gone := sel[k];
    ComparisonBar.ChipRemovesItsOwnId(BarItems(sel), k);
    RemovingSelectedModelDeselects(catalog, ids, k);
  }

  /** The compare link is live exactly when at least two distinct catalog ids are selected:
      one id is not enough, two are, and a repeated id counts once. */
  lemma CompareGate(catalog: seq<ConsoleModel>, ids: seq<nat>)
    requires NoDup(Ids(catalog))
    ensures var v := ComparisonBar.Render(BarItems(SelectedModels(catalog, ids)));
      (v.Shown? && v.compare.CompareLink?) <==> |Elems(ids) * Elems(Ids(catalog))| >= 2
  {
    BarReflectsSelection(catalog, ids);
  }
}
