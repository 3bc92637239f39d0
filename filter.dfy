/** The listing's filter engine: a record is shown when all four criteria accept it. */
module Filter {
  import opened Seqs
  import opened Text
  import opened ConsoleCatalog

  /** The four filter inputs the console page holds. */
  datatype Criteria = Criteria(search: string, companies: seq<string>, types: seq<ModelType>, minContext: nat)

  /** The page's initial filter state; Reset Filters returns to it. */
  const DefaultCriteria: Criteria := Criteria("", [], [], 0)

  /** Case-insensitive substring test on the name or the company. */
  predicate MatchesSearch(m: ConsoleModel, search: string)
  {
    Contains(Lower(m.name), Lower(search)) || Contains(Lower(m.company), Lower(search))
  }

  /** An empty company selection imposes no restriction. */
  predicate MatchesCompany(m: ConsoleModel, companies: seq<string>)
  {
    |companies| == 0 || m.company in companies
  }

  /** An empty type selection imposes no restriction. */
  predicate MatchesType(m: ConsoleModel, types: seq<ModelType>)
  {
    |types| == 0 || m.modelType in types
  }

  /** The context threshold is inclusive. */
  predicate MatchesContext(m: ConsoleModel, minContext: nat)
  {
    m.contextVal >= minContext
  }

  predicate Visible(m: ConsoleModel, c: Criteria)
  {
    MatchesSearch(m, c.search) && MatchesCompany(m, c.companies) &&
    MatchesType(m, c.types) && MatchesContext(m, c.minContext)
  }

  /** `filteredModels`: the records all four predicates accept, in catalog order. */
  function FilteredModels(models: seq<ConsoleModel>, c: Criteria): (r: seq<ConsoleModel>)
    ensures forall m :: m in r <==>
      m in models && MatchesSearch(m, c.search) && MatchesCompany(m, c.companies) &&
      MatchesType(m, c.types) && MatchesContext(m, c.minContext)
    ensures IsSubsequence(r, models) && |r| <= |models|
  {
    FilterIsSubsequence(models, m => Visible(m, c));
    Seqs.Filter(models, m => Visible(m, c))
  }

  /** The empty search string matches every record. */
  lemma EmptySearchMatchesAll(m: ConsoleModel)
    ensures MatchesSearch(m, "")
  {
    ContainsEmpty(Lower(m.name));
  }

  /** Only the lower-cased search text matters. */
  lemma SearchIgnoresCase(m: ConsoleModel, search: string)
    ensures MatchesSearch(m, search) <==> MatchesSearch(m, Lower(search))
  {
    LowerIdempotent(search);
  }

  /** With the initial criteria every record is shown, in catalog order. */
  lemma DefaultCriteriaShowsAll(models: seq<ConsoleModel>)
    ensures FilteredModels(models, DefaultCriteria) == models
  {
    forall m | m in models ensures Visible(m, DefaultCriteria) {
      EmptySearchMatchesAll(m);
    }
    FilterAll(models, m => Visible(m, DefaultCriteria));
  }

  /** Raising the context threshold never shows a record that was hidden. */
  lemma HigherThresholdShowsFewer(models: seq<ConsoleModel>, c: Criteria, higher: nat)
    requires higher >= c.minContext
    ensures forall m :: m in FilteredModels(models, c.(minContext := higher)) ==> m in FilteredModels(models, c)
  {
  }

  /** Choosing only the OpenAI checkbox shows exactly GPT-4o. */
  lemma OpenAiOnly()
    ensures FilteredModels(AllModels, Criteria("", ["OpenAI"], [], 0)) == [AllModels[0]]
  {
    var c := Criteria("", ["OpenAI"], [], 0);
    var p := m => Visible(m, c);
    EmptySearchMatchesAll(AllModels[0]);
    assert p(AllModels[0]);
    var rest := AllModels[1..];
    assert forall k :: 0 <= k < |rest| ==> !MatchesCompany(rest[k], c.companies) by {
      assert rest[0].company[0] != 'O' && rest[1].company[0] != 'O' && rest[2].company[0] != 'O';
      assert rest[3].company[0] != 'O' && rest[4].company[0] != 'O';
    }
    FilterNone(AllModels[1..], p);
  }
}
