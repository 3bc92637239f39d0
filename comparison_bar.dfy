/** The console's bottom comparison bar: a pure view of the selected models. */
module ComparisonBar {
  import opened Options
  import opened Seqs
  import opened Text
  import opened JsNumbers

  /** The part of a record the bar's props declare. */
  datatype BarItem = BarItem(id: nat, name: string)

  /** A chip shows a name; its remove button reports `removeId`. */
  datatype Chip = Chip(name: string, removeId: nat)

  /** The compare control: a live link, or a disabled button with an explanation. */
  datatype CompareControl = CompareLink(href: string) | DisabledCompare(title: string)

  /** What the bar renders: nothing, or the count, the chips and the compare control. */
  datatype BarView = Hidden | Shown(count: nat, chips: seq<Chip>, compare: CompareControl)

  /** The clicks the bar can receive, and the callbacks they fire. */
  datatype BarEvent = RemoveClicked(chip: nat) | ClearAllClicked
  datatype Callback = OnRemove(id: nat) | OnClear

  const CompareHrefPrefix: string := "/console/compare?ids="
  const DisabledTitle: string := "Select at least 2 models to compare"

  function IdTokens(items: seq<BarItem>): seq<string>
  {
    Map(items, (i: BarItem) => NatToString(i.id))
  }

  /** The selected ids, printed in decimal and joined with commas: empty
      exactly when nothing is selected, led by the first id, and made only of
      digits and commas, so it needs no URL escaping. */
  function QueryParams(items: seq<BarItem>): (q: string)
    ensures q == [] <==> items == []
    ensures items != [] ==> StartsWith(q, NatToString(items[0].id))
    ensures |items| == 1 ==> q == NatToString(items[0].id)
    ensures forall i :: 0 <= i < |q| ==> IsDigit(q[i]) || q[i] == ','
  {
    JoinCharacters(IdTokens(items));
    Join(IdTokens(items), ',')
  }

  /** `canCompare`: the compare link is offered exactly when its query names
      more than one id. */
  predicate CanCompare(items: seq<BarItem>): (b: bool)
    ensures b <==> ',' in QueryParams(items)
  {
    var q := QueryParams(items);
    if |items| >= 2 then
      var first := NatToString(items[0].id);
      assert q[|first|] == ',';
      true
    else
      assert forall i :: 0 <= i < |q| ==> q[i] != ',' by {
        if |items| == 1 {
          assert forall i :: 0 <= i < |q| ==> IsDigit(q[i]);
        }
      }
      false
  }

  function Render(items: seq<BarItem>): (v: BarView)
    ensures v.Hidden? <==> items == []
    ensures v.Shown? ==> v.count == |items| && |v.chips| == |items|
    ensures v.Shown? ==> forall k :: 0 <= k < |items| ==> v.chips[k] == Chip(items[k].name, items[k].id)
    ensures v.Shown? ==> (v.compare.CompareLink? <==> |items| >= 2)
    ensures v.Shown? && v.compare.CompareLink? ==> v.compare.href == CompareHrefPrefix + QueryParams(items)
    ensures v.Shown? && v.compare.DisabledCompare? ==> v.compare.title == DisabledTitle
  {
    if items == [] then Hidden
    else
      Shown(|items|,
            Map(items, (i: BarItem) => Chip(i.name, i.id)),
            if CanCompare(items) then CompareLink(CompareHrefPrefix + QueryParams(items))
            else DisabledCompare(DisabledTitle))
  }

  /** The callback a click on a rendered control fires; a click on a control
      that is not rendered fires nothing. */
  function Fire(v: BarView, e: BarEvent): (cb: Option<Callback>)
    ensures cb.Some? ==> v.Shown?
    ensures e.RemoveClicked? && v.Shown? && e.chip < |v.chips| ==> cb == Some(OnRemove(v.chips[e.chip].removeId))
    ensures e.RemoveClicked? && (v.Hidden? || e.chip >= |v.chips|) ==> cb == None
    ensures e.ClearAllClicked? ==> (cb.Some? <==> v.Shown?) && (cb.Some? ==> cb.value == OnClear)
  {
    match v
    case Hidden => None
    case Shown(_, chips, _) =>
      match e
      case RemoveClicked(k) => if k < |chips| then Some(OnRemove(chips[k].removeId)) else None
      case ClearAllClicked => Some(OnClear)
  }

  /** Each chip's remove button reports that chip's own id. */
  lemma ChipRemovesItsOwnId(items: seq<BarItem>, k: nat)
    requires k < |items|
    ensures Fire(Render(items), RemoveClicked(k)) == Some(OnRemove(items[k].id))
  {
  }

  lemma {:induction false} JoinCharacters(parts: seq<string>)
    requires forall k :: 0 <= k < |parts| ==> AllDigits(parts[k])
    ensures forall i :: 0 <= i < |Join(parts, ',')| ==> IsDigit(Join(parts, ',')[i]) || Join(parts, ',')[i] == ','
  {
    if |parts| > 1 {
      JoinCharacters(parts[1..]);
    }
  }

  /** Splitting the query on commas gives back one decimal token per item, in order. */
  lemma {:induction false} QuerySplits(items: seq<BarItem>)
    requires items != []
    ensures Split(QueryParams(items), ',') == IdTokens(items)
  {
    var tokens := IdTokens(items);
    forall k | 0 <= k < |tokens| ensures ',' !in tokens[k] {
      assert forall i :: 0 <= i < |tokens[k]| ==> tokens[k][i] != ',' by {
        assert AllDigits(tokens[k]);
      }
    }
    SplitJoin(tokens, ',');
  }

  /** Converting each token of the query with `Number` gives back the ids, in order. */
  lemma QueryRoundTrip(items: seq<BarItem>)
    requires items != []
    ensures Map(Split(QueryParams(items), ','), ToNumber) == Map(items, (i: BarItem) => Int(i.id))
  {
    QuerySplits(items);
    forall k | 0 <= k < |items| ensures ToNumber(IdTokens(items)[k]) == Int(items[k].id) {
      NumberOfNatToString(items[k].id);
    }
  }
}
