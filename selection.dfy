/** The three checkbox lists of the console page (companies, types,
    comparison ids) and the selection handed to the bottom bar. */
module Selection {
  import opened Seqs
  import opened ConsoleCatalog

  /** The list with every occurrence of `x` removed: every other element
      keeps all its copies, in order. */
  function Remove<T(==,!new)>(xs: seq<T>, x: T): (r: seq<T>)
    ensures forall y :: y in r <==> y in xs && y != x
    ensures IsSubsequence(r, xs)
    ensures multiset(r) == multiset(xs)[x := 0]
  {
    var keep := (y: T) => y != x;
    FilterIsSubsequence(xs, keep);
    FilterDropsOneValue(xs, x, keep);
    Filter(xs, keep)
  }

  /** The toggle handlers: remove the item if present, append it otherwise. */
  function Toggle<T(==,!new)>(xs: seq<T>, x: T): (r: seq<T>)
    ensures x in r <==> x !in xs
    ensures forall y :: y != x ==> (y in r <==> y in xs)
  {
    if x in xs then Remove(xs, x) else xs + [x]
  }

  /** A toggle keeps a duplicate-free list duplicate-free. */
  lemma ToggleKeepsNoDup<T(!new)>(xs: seq<T>, x: T)
    requires NoDup(xs)
    ensures NoDup(Toggle(xs, x))
  {
    if x in xs {
      SubsequenceNoDup(Remove(xs, x), xs);
    }
  }

  /** Toggling an absent item twice restores the exact list. */
  lemma ToggleTwiceAbsent<T(!new)>(xs: seq<T>, x: T)
    requires x !in xs
    ensures Toggle(Toggle(xs, x), x) == xs
  {
    FilterAppend(xs, [x], y => y != x);
    FilterAll(xs, y => y != x);
    assert Filter([x], y => y != x) == [];
  }

  /** Toggling a present item twice moves it to the end, leaving one copy. */
  lemma ToggleTwicePresent<T(!new)>(xs: seq<T>, x: T)
    requires x in xs
    ensures Toggle(Toggle(xs, x), x) == Remove(xs, x) + [x]
  {
  }

  /** Toggling the same item twice leaves the set of selected items unchanged. */
  lemma ToggleTwiceSameElements<T(!new)>(xs: seq<T>, x: T)
    ensures Elems(Toggle(Toggle(xs, x), x)) == Elems(xs)
  {
    if x !in xs {
      ToggleTwiceAbsent(xs, x);
    } else {
      var r := Toggle(Toggle(xs, x), x);
      assert forall y :: y in r <==> y in xs;
    }
  }

  /** The records handed to the comparison bar: those whose id is selected, in catalog order. */
  function SelectedModels(catalog: seq<ConsoleModel>, ids: seq<nat>): (r: seq<ConsoleModel>)
    ensures forall m :: m in r <==> m in catalog && m.id in ids
    ensures IsSubsequence(r, catalog)
  {
    FilterIsSubsequence(catalog, (m: ConsoleModel) => m.id in ids);
    Filter(catalog, (m: ConsoleModel) => m.id in ids)
  }

  /** With no ids selected nothing is selected. */
  lemma NothingSelected(catalog: seq<ConsoleModel>)
    ensures SelectedModels(catalog, []) == []
  {
    FilterNone(catalog, (m: ConsoleModel) => m.id in []);
  }

  /** The id of a selected record is one of the ids, and every listed id of the
      catalog has its record selected. */
  lemma SelectedIdsMembership(catalog: seq<ConsoleModel>, ids: seq<nat>)
    ensures forall x :: x in Ids(SelectedModels(catalog, ids)) <==> x in ids && x in Ids(catalog)
  {
    var r := SelectedModels(catalog, ids);
    forall x ensures x in Ids(r) <==> x in ids && x in Ids(catalog) {
      InIds(r, x);
      InIds(catalog, x);
    }
  }

  /** Over a catalog with unique ids the selection holds no id twice, in catalog order. */
  lemma SelectedIdsDistinct(catalog: seq<ConsoleModel>, ids: seq<nat>)
    requires NoDup(Ids(catalog))
    ensures NoDup(Ids(SelectedModels(catalog, ids)))
    ensures IsSubsequence(Ids(SelectedModels(catalog, ids)), Ids(catalog))
  {
    var r := SelectedModels(catalog, ids);
    MapSubsequence(r, catalog, (m: ConsoleModel) => m.id);
    SubsequenceNoDup(Ids(r), Ids(catalog));
  }

  /** The bar shows one record per distinct catalog id in the selection,
      whatever duplicates or unknown ids the id list holds. */
  lemma SelectedCount(catalog: seq<ConsoleModel>, ids: seq<nat>)
    requires NoDup(Ids(catalog))
    ensures |SelectedModels(catalog, ids)| == |Elems(ids) * Elems(Ids(catalog))|
  {
    var r := SelectedModels(catalog, ids);
    SelectedIdsDistinct(catalog, ids);
    SelectedIdsMembership(catalog, ids);
    NoDupCardinality(Ids(r));
    assert Elems(Ids(r)) == Elems(ids) * Elems(Ids(catalog));
  }

  /** Removing a chip's id from the selection drops exactly the records with that id. */
  lemma RemovingSelectedIdDeselects(catalog: seq<ConsoleModel>, ids: seq<nat>, k: nat)
    requires k < |SelectedModels(catalog, ids)|
    ensures var gone := SelectedModels(catalog, ids)[k];
      forall m :: m in SelectedModels(catalog, Toggle(ids, gone.id)) <==>
        m in SelectedModels(catalog, ids) && m.id != gone.id
  {
    var gone := SelectedModels(catalog, ids)[k];
    assert gone in SelectedModels(catalog, ids);
  }

  /** In a catalog with unique ids a record is known by its id. */
  lemma SameIdSameRecord(catalog: seq<ConsoleModel>, a: ConsoleModel, b: ConsoleModel)
    requires NoDup(Ids(catalog))
    requires a in catalog && b in catalog && a.id == b.id
    ensures a == b
  {
    var i :| 0 <= i < |catalog| && catalog[i] == a;
    var j :| 0 <= j < |catalog| && catalog[j] == b;
    assert Ids(catalog)[i] == Ids(catalog)[j];
  }

  /** Over a catalog with unique ids, removing a chip's id deselects that record and no other. */
  lemma RemovingSelectedModelDeselects(catalog: seq<ConsoleModel>, ids: seq<nat>, k: nat)
    requires NoDup(Ids(catalog))
    requires k < |SelectedModels(catalog, ids)|
    ensures var gone := SelectedModels(catalog, ids)[k];
      forall m :: m in SelectedModels(catalog, Toggle(ids, gone.id)) <==>
        m in SelectedModels(catalog, ids) && m != gone
  {
    var sel := SelectedModels(catalog, ids);
    var gone := sel[k];
    RemovingSelectedIdDeselects(catalog, ids, k);
    forall m | m in sel && m.id == gone.id ensures m == gone {
      SameIdSameRecord(catalog, m, gone);
    }
  }
}
