/** From the console's comparison bar to the comparison page: the link the
    bar renders is read back by the page's `ids` parser and resolver. */
module Navigation {
  import opened Options
  import opened Seqs
  import opened Text
  import opened JsNumbers
  import ConsoleCatalog
  import Selection
  import Console
  import ComparisonBar
  import Compare

  /** The ids the bar's items carry, in bar order. */
  function ItemIds(items: seq<ComparisonBar.BarItem>): seq<int>
  {
    Map(items, (i: ComparisonBar.BarItem) => i.id as int)
  }

  /** The comparison page opened from a bar with these items. */
  function Opened(items: seq<ComparisonBar.BarItem>): seq<Compare.CompareModel>
  {
    Compare.ResolvedModels(Some(ComparisonBar.QueryParams(items)))
  }

  /** The page parses the bar's query back into the bar's ids, in bar order. */
  lemma ParsedQuery(items: seq<ComparisonBar.BarItem>)
    requires items != []
    ensures Compare.ParseIds(Some(ComparisonBar.QueryParams(items))) == Map(items, (i: ComparisonBar.BarItem) => Int(i.id))
  {
    var q := ComparisonBar.QueryParams(items);
    ComparisonBar.QuerySplits(items);
    ComparisonBar.QueryRoundTrip(items);
    assert |Split(q, ',')[0]| >= 1;
  }

  /** Resolving the bar's ids against a catalog keeps the records whose id is on the bar. */
  lemma ResolveItems(catalog: seq<Compare.CompareModel>, items: seq<ComparisonBar.BarItem>)
    ensures forall m :: m in Compare.Resolve(catalog, Map(items, (i: ComparisonBar.BarItem) => Int(i.id))) <==>
      m in catalog && m.id in ItemIds(items)
  {
    var nums := Map(items, (i: ComparisonBar.BarItem) => Int(i.id));
    forall m: Compare.CompareModel ensures Int(m.id) in nums <==> m.id in ItemIds(items) {
      if Int(m.id) in nums {
        var k :| 0 <= k < |nums| && nums[k] == Int(m.id);
        assert ItemIds(items)[k] == m.id;
      }
      if m.id in ItemIds(items) {
        var k :| 0 <= k < |items| && ItemIds(items)[k] == m.id;
        assert nums[k] == Int(m.id);
      }
    }
  }

  /** The page compares exactly the records of its own catalog whose id is on the bar. */
  lemma QueryResolvesItems(items: seq<ComparisonBar.BarItem>)
    requires items != []
    ensures forall m :: m in Opened(items) <==> m in Compare.FullModelData && m.id in ItemIds(items)
  {
    ParsedQuery(items);
    ResolveItems(Compare.FullModelData, items);
  }

  /** Against a catalog numbered from one, the resolved ids are the bar's ids
      that lie in the catalog's range, in increasing order. */
  lemma {:induction false} NumberedResolve(catalog: seq<Compare.CompareModel>, items: seq<ComparisonBar.BarItem>)
    requires Compare.NumberedFromOne(catalog)
    ensures var r := Compare.Resolve(catalog, Map(items, (i: ComparisonBar.BarItem) => Int(i.id)));
      (forall x :: x in Compare.Ids(r) <==> x in ItemIds(items) && 1 <= x <= |catalog|) &&
      Increasing(Compare.Ids(r))
  {
    var r := Compare.Resolve(catalog, Map(items, (i: ComparisonBar.BarItem) => Int(i.id)));
    ResolveItems(catalog, items);
    forall x ensures x in Compare.Ids(r) <==> x in ItemIds(items) && 1 <= x <= |catalog| {
      if x in Compare.Ids(r) {
        var k :| 0 <= k < |r| && Compare.Ids(r)[k] == x;
        assert r[k] in r;
        var j :| 0 <= j < |catalog| && catalog[j] == r[k];
      }
      if x in ItemIds(items) && 1 <= x <= |catalog| {
        assert catalog[x - 1] in r;
        var j :| 0 <= j < |r| && r[j] == catalog[x - 1];
        assert Compare.Ids(r)[j] == x;
      }
    }
    assert Increasing(Compare.Ids(catalog)) by {
      assert forall k :: 0 <= k < |catalog| ==> Compare.Ids(catalog)[k] == k + 1;
    }
    MapSubsequence(r, catalog, (m: Compare.CompareModel) => m.id as int);
    SubsequenceIncreasing(Compare.Ids(r), Compare.Ids(catalog));
  }

  /** Against a catalog numbered from one, distinct bar ids within its range
      resolve to one record per id. */
  lemma NumberedDistinctResolve(catalog: seq<Compare.CompareModel>, items: seq<ComparisonBar.BarItem>)
    requires Compare.NumberedFromOne(catalog) && NoDup(ItemIds(items))
    requires forall k :: 0 <= k < |items| ==> 1 <= items[k].id <= |catalog|
    ensures var r := Compare.Resolve(catalog, Map(items, (i: ComparisonBar.BarItem) => Int(i.id)));
      Elems(Compare.Ids(r)) == Elems(ItemIds(items)) && |r| == |items| && Increasing(Compare.Ids(r))
  {
    var r := Compare.Resolve(catalog, Map(items, (i: ComparisonBar.BarItem) => Int(i.id)));
    NumberedResolve(catalog, items);
    assert forall x :: x in ItemIds(items) ==> 1 <= x <= |catalog|;
    assert Elems(Compare.Ids(r)) == Elems(ItemIds(items));
    SameElementsSameLength(Compare.Ids(r), ItemIds(items));
  }

  /** Distinct bar ids that the page knows (1 to 4) come back one record per
      id: the same ids, as many records as items, in catalog order. */
  lemma DistinctKnownIdsRoundTrip(items: seq<ComparisonBar.BarItem>)
    requires items != [] && NoDup(ItemIds(items))
    requires forall k :: 0 <= k < |items| ==> 1 <= items[k].id <= 4
    ensures Elems(Compare.Ids(Opened(items))) == Elems(ItemIds(items))
    ensures |Opened(items)| == |items|
    ensures Increasing(Compare.Ids(Opened(items)))
  {
    ParsedQuery(items);
    Compare.FullModelDataFacts();
    NumberedDistinctResolve(Compare.FullModelData, items);
  }

  /** Every id of the comparison catalog is also an id of the console catalog. */
  lemma CompareIdsListedInConsole()
    ensures forall m :: m in Compare.FullModelData ==> m.id in ConsoleCatalog.Ids(ConsoleCatalog.AllModels)
  {
    Compare.FullModelDataFacts();
    Compare.NumberedIdsInRange(Compare.FullModelData);
    ConsoleCatalog.AllModelsIds();
  }

  /** A live compare link opens a page comparing exactly the comparison
      records whose id the console has selected. */
  lemma ConsoleLinkOpensSelection(ids: seq<nat>)
    ensures var items := Console.BarItems(Selection.SelectedModels(ConsoleCatalog.AllModels, ids));
      var v := ComparisonBar.Render(items);
      v.Shown? && v.compare.CompareLink? ==>
        v.compare.href == ComparisonBar.CompareHrefPrefix + ComparisonBar.QueryParams(items) &&
        forall m :: m in Opened(items) <==> m in Compare.FullModelData && m.id in ids
  {
    var sel := Selection.SelectedModels(ConsoleCatalog.AllModels, ids);
    var items := Console.BarItems(sel);
    if items != [] {
      QueryResolvesItems(items);
      Selection.SelectedIdsMembership(ConsoleCatalog.AllModels, ids);
      CompareIdsListedInConsole();
      assert ItemIds(items) == ConsoleCatalog.Ids(sel);
    }
  }

  /** Bar ids beyond a catalog numbered from one resolve to nothing. */
  lemma NumberedResolveBeyondRange(catalog: seq<Compare.CompareModel>, items: seq<ComparisonBar.BarItem>)
    requires Compare.NumberedFromOne(catalog)
    requires forall x :: x in ItemIds(items) ==> x > |catalog|
    ensures Compare.Resolve(catalog, Map(items, (i: ComparisonBar.BarItem) => Int(i.id))) == []
  {
    var r := Compare.Resolve(catalog, Map(items, (i: ComparisonBar.BarItem) => Int(i.id)));
    NumberedResolve(catalog, items);
    assert Elems(Compare.Ids(r)) == Elems([]);
    SameElementsSameLength(Compare.Ids(r), []);
  }

  /** A selection holding only ids above 4 opens the empty state, whatever the console catalog. */
  lemma IdsBeyondCompareCatalogOpenEmptyPage(catalog: seq<ConsoleCatalog.ConsoleModel>, ids: seq<nat>)
    requires forall x :: x in ids ==> x > 4
    ensures var items := Console.BarItems(Selection.SelectedModels(catalog, ids));
      Compare.View(Some(ComparisonBar.QueryParams(items))).NoModelsSelected?
  {
    var sel := Selection.SelectedModels(catalog, ids);
    var items := Console.BarItems(sel);
    if items == [] {
      Compare.MissingParameterShowsEmptyState();
    } else {
      Selection.SelectedIdsMembership(catalog, ids);
      assert ItemIds(items) == ConsoleCatalog.Ids(sel);
      ParsedQuery(items);
      Compare.FullModelDataFacts();
      NumberedResolveBeyondRange(Compare.FullModelData, items);
    }
  }

  /** A console selection holding only ids above 4 opens the empty state. */
  lemma ConsoleIdsBeyondFourOpenEmptyPage(ids: seq<nat>)
    requires forall x :: x in ids ==> x > 4
    ensures var items := Console.BarItems(Selection.SelectedModels(ConsoleCatalog.AllModels, ids));
      Compare.View(Some(ComparisonBar.QueryParams(items))).NoModelsSelected?
  {
    IdsBeyondCompareCatalogOpenEmptyPage(ConsoleCatalog.AllModels, ids);
  }

  /** The ids 5 and 6 are both in the console catalog. */
  lemma FiveAndSixListed(ids: seq<nat>)
    requires 5 in ids && 6 in ids && forall x :: x in ids ==> x == 5 || x == 6
    ensures |Elems(ids) * Elems(ConsoleCatalog.Ids(ConsoleCatalog.AllModels))| == 2
  {
    assert Elems(ids) == {5, 6};
    var catalogIds := ConsoleCatalog.Ids(ConsoleCatalog.AllModels);
    ConsoleCatalog.AllModelsIds();
    assert catalogIds[4] == 5 && catalogIds[5] == 6;
    assert Elems(ids) * Elems(catalogIds) == {5, 6};
  }

  /** Records 5 and 6 are two distinct catalog ids, so selecting them makes the link live. */
  lemma ConsoleOnlySelectionLinkIsLive(ids: seq<nat>)
    requires 5 in ids && 6 in ids && forall x :: x in ids ==> x == 5 || x == 6
    ensures var v := ComparisonBar.Render(Console.BarItems(Selection.SelectedModels(ConsoleCatalog.AllModels, ids)));
      v.Shown? && v.compare.CompareLink?
  {
    FiveAndSixListed(ids);
    ConsoleCatalog.AllModelsIds();
    Console.CompareGate(ConsoleCatalog.AllModels, ids);
  }

  /** Selecting only the console's records 5 and 6 (in any order, repeated or
      not) gives a live compare link that opens the empty state, because the
      comparison catalog lacks both ids. */
  lemma ConsoleOnlySelectionOpensEmptyPage(ids: seq<nat>)
    requires 5 in ids && 6 in ids && forall x :: x in ids ==> x == 5 || x == 6
    ensures var items := Console.BarItems(Selection.SelectedModels(ConsoleCatalog.AllModels, ids));
      var v := ComparisonBar.Render(items);
      v.Shown? && v.compare.CompareLink? &&
      Compare.View(Some(ComparisonBar.QueryParams(items))).NoModelsSelected?
  {
    ConsoleOnlySelectionLinkIsLive(ids);
    ConsoleIdsBeyondFourOpenEmptyPage(ids);
  }
}
