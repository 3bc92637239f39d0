/** The console page's inline catalog (`allModels`) and the option lists the
    filter sidebar offers. */
module ConsoleCatalog {
  import Seqs

  /** The closed set of model types; the page holds them as the strings `TypeLabel` gives. */
  datatype ModelType = ClosedApi | OpenWeight | Mixed

  function TypeLabel(t: ModelType): string
  {
    match t
    case ClosedApi => "Closed API"
    case OpenWeight => "Open-weight"
    case Mixed => "Mixed"
  }

  /** One listing record. `mmluTenths` is the MMLU score times ten (88.7 is 887);
      `contextVal` is the context window in thousands of tokens. */
  datatype ConsoleModel = ConsoleModel(
    id: nat,
    name: string,
    company: string,
    mmluTenths: nat,
    context: string,
    contextVal: nat,
    modelType: ModelType,
    audited: bool)

  const AllModels: seq<ConsoleModel> := [
    ConsoleModel(1, "GPT-4o", "OpenAI", 887, "128k", 128, ClosedApi, true),
    ConsoleModel(2, "Claude 3.5 Sonnet", "Anthropic", 883, "200k", 200, ClosedApi, true),
    ConsoleModel(3, "Gemini 1.5 Pro", "Google", 859, "1000k", 1000, ClosedApi, false),
    ConsoleModel(4, "Llama 3.1 (405B)", "Meta", 873, "128k", 128, OpenWeight, true),
    ConsoleModel(5, "Mistral Large 2", "Mistral", 840, "32k", 32, OpenWeight, false),
    ConsoleModel(6, "Grok-1.5", "xAI", 813, "128k", 128, OpenWeight, false)
  ]

  /** The company checkboxes of the sidebar. */
  const CompanyOptions: seq<string> := ["OpenAI", "Anthropic", "Google", "Meta", "Mistral", "xAI"]

  /** The type checkboxes of the sidebar. */
  const TypeOptions: seq<ModelType> := [ClosedApi, OpenWeight, Mixed]

  /** The range of the minimum-context slider. */
  predicate IsSliderValue(v: nat)
  {
    v <= 1000 && v % 10 == 0
  }

  function Ids(models: seq<ConsoleModel>): seq<nat>
  {
    Seqs.Map(models, (m: ConsoleModel) => m.id)
  }

  /** An id is listed exactly when some record carries it. */
  lemma InIds(models: seq<ConsoleModel>, x: nat)
    ensures x in Ids(models) <==> exists m :: m in models && m.id == x
  {
    if x in Ids(models) {
      var k :| 0 <= k < |models| && Ids(models)[k] == x;
      assert models[k] in models;
    }
    if exists m :: m in models && m.id == x {
      var m :| m in models && m.id == x;
      var k :| 0 <= k < |models| && models[k] == m;
      assert Ids(models)[k] == x;
    }
  }

  /** The catalog holds the ids 1 to 6 in increasing order, so every id is unique. */
  lemma AllModelsIds()
    ensures Ids(AllModels) == [1, 2, 3, 4, 5, 6]
    ensures Seqs.NoDup(Ids(AllModels)) && Seqs.Increasing(Ids(AllModels))
  {
    var ids := Ids(AllModels);
    assert ids[0] == 1 && ids[1] == 2 && ids[2] == 3 && ids[3] == 4 && ids[4] == 5 && ids[5] == 6;
    assert ids == [1, 2, 3, 4, 5, 6];
  }

  /** Every record's company and type is one the sidebar offers. */
  lemma CatalogWithinOptions()
    ensures forall m :: m in AllModels ==> m.company in CompanyOptions && m.modelType in TypeOptions
  {
  }
}
