/** The comparison page: it reads the `ids` query parameter, resolves the ids
    against its own four-record catalog and builds the radar chart's rows. */
module Compare {
  import opened Options
  import opened Seqs
  import opened Text
  import opened JsNumbers

  /** One record of the page's own catalog `fullModelData`. Scores are
      percentages; `mmluTenths` and `humanEvalTenths` are ten times the
      published score; `contextVal` is a raw token count; the fourth record
      has no `context` label. */
  datatype CompareModel = CompareModel(
    id: nat,
    name: string,
    company: string,
    color: string,
    mmluTenths: nat,
    humanEvalTenths: nat,
    context: Option<string>,
    contextVal: nat,
    safety: nat,
    governance: nat,
    performance: nat)

  const FullModelData: seq<CompareModel> := [
    CompareModel(1, "GPT-4o", "OpenAI", "#06B6D4", 887, 902, Some("128k"), 128000, 95, 85, 98),
    CompareModel(2, "Claude 3.5 Sonnet", "Anthropic", "#F97316", 883, 920, Some("200k"), 200000, 98, 92, 96),
    CompareModel(3, "Gemini 1.5 Pro", "Google", "#8B5CF6", 859, 841, Some("1000k"), 1000000, 88, 80, 89),
    CompareModel(4, "Llama 3.1", "Meta", "#10B981", 873, 850, None, 128000, 80, 70, 92)
  ]

  function Ids(models: seq<CompareModel>): seq<int>
  {
    Map(models, (m: CompareModel) => m.id as int)
  }

  function Names(models: seq<CompareModel>): seq<string>
  {
    Map(models, (m: CompareModel) => m.name)
  }

  /** The records carry the ids 1, 2, 3, ... in catalog order. */
  predicate NumberedFromOne(catalog: seq<CompareModel>)
  {
    forall k :: 0 <= k < |catalog| ==> catalog[k].id == k + 1
  }

  /** In a catalog numbered from one, every id lies between 1 and the catalog's length. */
  lemma NumberedIdsInRange(catalog: seq<CompareModel>)
    requires NumberedFromOne(catalog)
    ensures forall m :: m in catalog ==> 1 <= m.id <= |catalog|
  {
  }

  /** The catalog holds the ids 1 to 4 in increasing order, under four distinct names. */
  lemma FullModelDataFacts()
    ensures Ids(FullModelData) == [1, 2, 3, 4] && Increasing(Ids(FullModelData))
    ensures |FullModelData| == 4 && NumberedFromOne(FullModelData)
    ensures NoDup(Names(FullModelData))
  {
    var ids := Ids(FullModelData);
    assert ids[0] == 1 && ids[1] == 2 && ids[2] == 3 && ids[3] == 4;
    assert ids == [1, 2, 3, 4];
    var names := Names(FullModelData);
    assert |names[0]| == 6 && |names[1]| == 17 && |names[2]| == 14 && |names[3]| == 9;
  }

  /** The `ids` parameter read as numbers: an absent or empty parameter gives
      no ids; otherwise every comma-separated token is converted with `Number`. */
  function ParseIds(idsParam: Option<string>): (r: seq<JsNumber>)
    ensures idsParam == None || idsParam == Some("") ==> r == []
    ensures idsParam.Some? && idsParam.value != "" ==>
      |r| == |Split(idsParam.value, ',')| &&
      forall k :: 0 <= k < |r| ==> r[k] == ToNumber(Split(idsParam.value, ',')[k])
  {
    if idsParam.None? || idsParam.value == "" then []
    else Map(Split(idsParam.value, ','), ToNumber)
  }

  /** The catalog records whose id equals one of the parsed numbers, in catalog order. */
  function Resolve(catalog: seq<CompareModel>, ids: seq<JsNumber>): (r: seq<CompareModel>)
    ensures forall m :: m in r <==> m in catalog && Int(m.id) in ids
    ensures IsSubsequence(r, catalog)
  {
    FilterIsSubsequence(catalog, (m: CompareModel) => Int(m.id) in ids);
    Filter(catalog, (m: CompareModel) => Int(m.id) in ids)
  }

  /** The records the page compares: those of the catalog whose id the
      parameter names, none when it names nothing, in catalog order and with
      distinct names whatever the order of the URL ids. */
  function ResolvedModels(idsParam: Option<string>): (r: seq<CompareModel>)
    ensures forall m :: m in r <==> m in FullModelData && Int(m.id) in ParseIds(idsParam)
    ensures ParseIds(idsParam) == [] ==> r == []
    ensures Increasing(Ids(r))
    ensures NoDup(Names(r))
  {
    var r := Resolve(FullModelData, ParseIds(idsParam));
    FullModelDataFacts();
    FilterNone(FullModelData, (m: CompareModel) => Int(m.id) in []);
    MapSubsequence(r, FullModelData, (m: CompareModel) => m.id as int);
    SubsequenceIncreasing(Ids(r), Ids(FullModelData));
    MapSubsequence(r, FullModelData, (m: CompareModel) => m.name);
    SubsequenceNoDup(Names(r), Names(FullModelData));
    r
  }

  /** Only the set of parsed ids matters: neither their order nor repeated ids change the result. */
  lemma ResolveDependsOnlyOnIdSet(catalog: seq<CompareModel>, a: seq<JsNumber>, b: seq<JsNumber>)
    requires Elems(a) == Elems(b)
    ensures Resolve(catalog, a) == Resolve(catalog, b)
  {
    assert forall x :: x in a <==> x in Elems(a);
    assert forall x :: x in b <==> x in Elems(b);
    FilterCongruent(catalog, (m: CompareModel) => Int(m.id) in a, (m: CompareModel) => Int(m.id) in b);
  }

  /** A repeated id collapses: the record appears once. */
  lemma DuplicateIdCollapses(catalog: seq<CompareModel>, ids: seq<JsNumber>, k: nat)
    requires k < |ids|
    ensures Resolve(catalog, ids + [ids[k]]) == Resolve(catalog, ids)
  {
    assert Elems(ids + [ids[k]]) == Elems(ids);
    ResolveDependsOnlyOnIdSet(catalog, ids + [ids[k]], ids);
  }

  /** Tokens that match no catalog id (unknown ids, NaN, fractions) are dropped without error. */
  lemma UnmatchedTokensDropped(catalog: seq<CompareModel>, ids: seq<JsNumber>, extra: seq<JsNumber>)
    requires forall x, m :: x in extra && m in catalog ==> x != Int(m.id)
    ensures Resolve(catalog, ids + extra) == Resolve(catalog, ids)
  {
    FilterCongruent(catalog, (m: CompareModel) => Int(m.id) in ids + extra, (m: CompareModel) => Int(m.id) in ids);
  }

  /** The ids 5 and 6, which the console lists, are not in this catalog and are dropped. */
  lemma ConsoleOnlyIdsDropped(ids: seq<JsNumber>)
    ensures Resolve(FullModelData, ids + [Int(5), Int(6)]) == Resolve(FullModelData, ids)
  {
    FullModelDataFacts();
    forall x, m | x in [Int(5), Int(6)] && m in FullModelData ensures x != Int(m.id) {
      var k :| 0 <= k < |FullModelData| && FullModelData[k] == m;
      assert Ids(FullModelData)[k] == m.id;
    }
    UnmatchedTokensDropped(FullModelData, ids, [Int(5), Int(6)]);
  }

  /** An empty token counts as 0, which is no id of this catalog. */
  lemma EmptyTokenMatchesNothing(ids: seq<JsNumber>)
    ensures Resolve(FullModelData, ids + [ToNumber("")]) == Resolve(FullModelData, ids)
  {
    ZeroMatchesNothing(ids);
    assert ToNumber("") == Int(0);
  }

  /** 0 is no id of this catalog. */
  lemma ZeroMatchesNothing(ids: seq<JsNumber>)
    ensures Resolve(FullModelData, ids + [Int(0)]) == Resolve(FullModelData, ids)
  {
    FullModelDataFacts();
    forall x, m | x in [Int(0)] && m in FullModelData ensures x != Int(m.id) {
      var k :| 0 <= k < |FullModelData| && FullModelData[k] == m;
      assert Ids(FullModelData)[k] == m.id;
    }
    UnmatchedTokensDropped(FullModelData, ids, [Int(0)]);
  }

  /** Numbers that are all NaN, infinite or fractional match no record of any catalog. */
  lemma NotIntegersMatchNothing(catalog: seq<CompareModel>, ids: seq<JsNumber>)
    requires forall k :: 0 <= k < |ids| ==> ids[k] == NotInteger
    ensures Resolve(catalog, ids) == []
  {
    assert forall m: CompareModel :: Int(m.id) !in ids;
    FilterNone(catalog, (m: CompareModel) => Int(m.id) in ids);
  }

  /** A parameter whose every comma token converts to NaN shows the empty state. */
  lemma NaNTokensShowEmptyState(p: string)
    requires forall k :: 0 <= k < |Split(p, ',')| ==> ToNumber(Split(p, ',')[k]) == NotInteger
    ensures View(Some(p)).NoModelsSelected?
  {
    NotIntegersMatchNothing(FullModelData, ParseIds(Some(p)));
  }

  /** A parameter made only of tokens that start like no numeral parses to NaNs,
      which equal no id, so the page shows the empty state. */
  lemma NonNumericTokensShowEmptyState(p: string)
    requires forall k :: 0 <= k < |Split(p, ',')| ==> StartsNonNumeric(Split(p, ',')[k])
    ensures View(Some(p)).NoModelsSelected?
  {
    NotIntegersMatchNothing(FullModelData, ParseIds(Some(p)));
  }

  /** `ids=abc` opens the empty state. */
  lemma LetterTokenShowsEmptyState()
    ensures View(Some("abc")).NoModelsSelected?
  {
    SplitPiece("abc", "", ',');
    assert Trim("abc") == "abc";
    NonNumericTokensShowEmptyState("abc");
  }

  /** `ids=1abc` opens the empty state too: `Number` does not stop at the digits as `parseInt` would. */
  lemma DigitsWithJunkShowEmptyState()
    ensures View(Some("1abc")).NoModelsSelected?
  {
    SplitPiece("1abc", "", ',');
    DigitsWithJunkIsNaN();
    NaNTokensShowEmptyState("1abc");
  }

  // ---- the radar chart's rows ----

  datatype Axis = SafetyAxis | GovernanceAxis | PerformanceAxis

  function Subject(a: Axis): string
  {
    match a
    case SafetyAxis => "Safety"
    case GovernanceAxis => "Governance"
    case PerformanceAxis => "Performance"
  }

  function Score(m: CompareModel, a: Axis): nat
  {
    match a
    case SafetyAxis => m.safety
    case GovernanceAxis => m.governance
    case PerformanceAxis => m.performance
  }

  /** One data point of the radar chart: the axis name and one value per model
      name. In the page both live in one object whose name keys are spread
      after `subject`, so a model named "subject" would replace the axis
      label; no record of `FullModelData` has that name, and the row keeps
      the two apart. */
  datatype RadarRow = RadarRow(subject: string, scores: map<string, nat>)

  /** One axis's scores keyed by model name, accumulated from the first model
      to the last, so a later model overwrites an earlier one of the same name. */
  function ScoresByName(models: seq<CompareModel>, a: Axis): (r: map<string, nat>)
    ensures r.Keys == Elems(Names(models))
    decreases |models|
  {
    if models == [] then map[]
    else
      var init, last := models[..|models| - 1], models[|models| - 1];
      assert Names(models) == Names(init) + [last.name];
      ScoresByName(init, a)[last.name := Score(last, a)]
  }

  /** When names are distinct, each model's name maps to that model's score. */
  lemma {:induction false} ScoresByNameAt(models: seq<CompareModel>, a: Axis, k: nat)
    requires NoDup(Names(models)) && k < |models|
    ensures ScoresByName(models, a)[models[k].name] == Score(models[k], a)
    decreases |models|
  {
    var init, last := models[..|models| - 1], models[|models| - 1];
    if k < |models| - 1 {
      assert Names(models)[k] != Names(models)[|models| - 1];
      assert NoDup(Names(init)) by {
        assert forall i :: 0 <= i < |init| ==> Names(init)[i] == Names(models)[i];
      }
      assert init[k] == models[k];
      ScoresByNameAt(init, a, k);
    }
  }

  const Axes: seq<Axis> := [SafetyAxis, GovernanceAxis, PerformanceAxis]

  /** `radarData`: three rows, Safety, Governance and Performance, each keyed by every model's name. */
  function RadarData(models: seq<CompareModel>): (rows: seq<RadarRow>)
    ensures |rows| == 3
    ensures rows[0].subject == "Safety" && rows[1].subject == "Governance" && rows[2].subject == "Performance"
    ensures forall i :: 0 <= i < 3 ==> rows[i].scores.Keys == Elems(Names(models))
  {
    Map(Axes, (a: Axis) => RadarRow(Subject(a), ScoresByName(models, a)))
  }

  /** Every compared model's name maps to its safety, governance and performance score. */
  lemma RadarValues(idsParam: Option<string>, k: nat)
    requires k < |ResolvedModels(idsParam)|
    ensures var models := ResolvedModels(idsParam);
      var rows := RadarData(models);
      rows[0].scores[models[k].name] == models[k].safety &&
      rows[1].scores[models[k].name] == models[k].governance &&
      rows[2].scores[models[k].name] == models[k].performance
  {
    var models := ResolvedModels(idsParam);
    ScoresByNameAt(models, SafetyAxis, k);
    ScoresByNameAt(models, GovernanceAxis, k);
    ScoresByNameAt(models, PerformanceAxis, k);
  }

  // ---- what the page renders ----

  const EmptyMessage: string := "No models selected. Go back to console."

  /** Where the workbench's Back to Index link points. */
  const BackToIndexHref: string := "/console"

  /** The page: only the empty-state message, with no link, when nothing
      resolves; otherwise the workbench with its back link, records and radar rows. */
  datatype CompareView =
    | NoModelsSelected(message: string)
    | Workbench(backHref: string, models: seq<CompareModel>, radar: seq<RadarRow>)

  function View(idsParam: Option<string>): (v: CompareView)
    ensures v.NoModelsSelected? <==> ResolvedModels(idsParam) == []
    ensures v.NoModelsSelected? ==> v.message == EmptyMessage
    ensures v.Workbench? ==> v.backHref == BackToIndexHref
    ensures v.Workbench? ==> v.models == ResolvedModels(idsParam) && v.radar == RadarData(v.models)
  {
    var models := ResolvedModels(idsParam);
    if |models| == 0 then NoModelsSelected(EmptyMessage)
    else Workbench(BackToIndexHref, models, RadarData(models))
  }

  /** Without an `ids` parameter, or with an empty one, the page shows only the empty state. */
  lemma MissingParameterShowsEmptyState()
    ensures View(None) == NoModelsSelected(EmptyMessage)
    ensures View(Some("")) == NoModelsSelected(EmptyMessage)
  {
    FilterNone(FullModelData, (m: CompareModel) => Int(m.id) in []);
  }
}
